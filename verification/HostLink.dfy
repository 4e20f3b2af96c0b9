/** The host end of the link: the receive path on a growing buffer, request/reply, and the ordering rules of RUN. */
module HostLink {
  import opened Bytes
  import opened Frames
  import opened HostStream
  import opened HostRecord

  const NACK: byte := 0xFF
  const CMD_RUN: byte := 0x30
  const ACK_RUN: byte := 0xB0
  const CMD_RUN_COMPLETE: byte := 0x31

  // ---- one call of the parser ----

  /** Scanning up to and including the first frame. */
  function First(s: seq<byte>): Scanned
    decreases |s|
  {
    var v := Judge(s);
    if v.Wait? then Scanned([], s)
    else if v.item.Emitted? then Scanned([v.item], s[v.n..])
    else Ahead(v.item, First(s[v.n..]))
  }

  function Yield(items: seq<Item>): Option<Frame> {
    if items != [] && items[|items| - 1].Emitted? then Some(items[|items| - 1].frame) else None
  }

  predicate NoFrames(items: seq<Item>) {
    forall i :: 0 <= i < |items| ==> !items[i].Emitted?
  }

  /** Parsing again and again is scanning: each call takes the next frame off the front. */
  lemma {:induction false} FirstThenScan(s: seq<byte>)
    ensures Scan(s) == Join(First(s), Scan(First(s).rest))
    decreases |s|
  {
    var v := Judge(s);
    if v.Take? && !v.item.Emitted? {
      FirstThenScan(s[v.n..]);
      JoinAhead(v.item, First(s[v.n..]), Scan(First(s).rest));
    } else if v.Wait? {
      assert [] + Scan(s).items == Scan(s).items;
    }
  }

  lemma {:induction false} FirstYields(s: seq<byte>)
    ensures FramesOf(First(s).items) == (if Yield(First(s).items).Some? then [Yield(First(s).items).value] else [])
    ensures Yield(First(s).items).None? ==> Scan(First(s).rest) == Scanned([], First(s).rest)
    decreases |s|
  {
    var v := Judge(s);
    if v.Take? && !v.item.Emitted? {
      FirstYields(s[v.n..]);
      ItemsAppend([v.item], First(s[v.n..]).items);
      assert First(s).items == [v.item] + First(s[v.n..]).items;
    }
  }

  lemma {:induction false} FirstSkipsNoise(noise: seq<byte>, s: seq<byte>)
    requires |s| >= 3 && NoMagicBefore(noise + s, |noise|)
    ensures First(noise + s) == Join(Scanned(NoiseItems(noise), s), First(s))
    decreases |noise|
  {
    if noise == [] {
      assert noise + s == s;
      assert [] + First(s).items == First(s).items;
    } else {
      var t := noise[1..] + s;
      assert (noise + s)[1..] == t && (noise + s)[0..] == noise + s;
      forall k | 0 <= k < |noise| - 1
        ensures !HasMagic(t[k..])
      {
        assert t[k..] == (noise + s)[k + 1..];
      }
      FirstSkipsNoise(noise[1..], s);
      JoinAhead(Noise(noise[0]), Scanned(NoiseItems(noise[1..]), s), First(s));
    }
  }

  lemma {:induction false} NoiseHasNoFrames(noise: seq<byte>)
    ensures NoFrames(NoiseItems(noise))
  {
    if noise != [] {
      NoiseHasNoFrames(noise[1..]);
    }
  }

  /** The parser, started on `s0`, has dealt with `items` and has `s` left in its buffer. */
  ghost predicate Progress(s0: seq<byte>, items: seq<Item>, s: seq<byte>) {
    First(s0) == Join(Scanned(items, s), First(s)) && NoFrames(items)
  }

  lemma StartProgress(s: seq<byte>)
    ensures Progress(s, [], s)
  {
    assert [] + First(s).items == First(s).items;
  }

  lemma SkipNoise(s0: seq<byte>, items: seq<Item>, noise: seq<byte>, s: seq<byte>)
    requires Progress(s0, items, noise + s) && NoMagicBefore(noise + s, |noise|) && |s| >= 3
    ensures Progress(s0, items + NoiseItems(noise), s)
  {
    FirstSkipsNoise(noise, s);
    NoiseHasNoFrames(noise);
    JoinAssociates(Scanned(items, noise + s), Scanned(NoiseItems(noise), s), First(s));
  }

  lemma SkippedReads(items: seq<Item>, noise: seq<byte>)
    ensures TextOf(items + NoiseItems(noise)) == TextOf(items) + noise
    ensures ResyncsOf(items + NoiseItems(noise)) == ResyncsOf(items)
  {
    NoiseReads(noise);
    TextAppend(items, NoiseItems(noise));
    ResyncsAppend(items, NoiseItems(noise));
  }

  /** Dropping `k` bytes at which no magic starts is recording them as noise. */
  lemma SkipItems(s0: seq<byte>, items: seq<Item>, s: seq<byte>, k: nat, log: seq<byte>) returns (more: seq<Item>)
    requires Progress(s0, items, s)
    requires k <= |s| && NoMagicBefore(s, k) && (k == 0 || |s| - k >= 3)
    ensures Progress(s0, more, s[k..]) && ResyncsOf(more) == ResyncsOf(items)
    ensures log + TextOf(more) == log + TextOf(items) + s[..k]
  {
    more := items + NoiseItems(s[..k]);
    Regroup(log, TextOf(items), s[..k]);
    SkippedReads(items, s[..k]);
    if k == 0 {
      assert s[..k] == [] && s[k..] == s;
      assert items + NoiseItems(s[..k]) == items;
    } else {
      assert s[..k] + s[k..] == s;
      SkipNoise(s0, items, s[..k], s[k..]);
    }
  }

  /** A rejected candidate costs one byte. */
  lemma RejectItem(s0: seq<byte>, items: seq<Item>, s: seq<byte>)
    requires Progress(s0, items, s) && s != [] && Judge(s) == Take(Resync(s[0]), 1)
    ensures var more := items + [Resync(s[0])];
      Progress(s0, more, s[1..]) && TextOf(more) == TextOf(items) + s[..1] && ResyncsOf(more) == ResyncsOf(items) + 1
  {
    RejectProgress(s0, items, s);
    RejectedText(items, s[0]);
    assert s[..1] == [s[0]];
  }

  lemma RejectProgress(s0: seq<byte>, items: seq<Item>, s: seq<byte>)
    requires Progress(s0, items, s) && s != [] && Judge(s) == Take(Resync(s[0]), 1)
    ensures Progress(s0, items + [Resync(s[0])], s[1..])
  {
    ItemsAppend(items, [Resync(s[0])]);
    JoinAssociates(Scanned(items, s), Scanned([Resync(s[0])], s[1..]), First(s[1..]));
  }

  lemma RejectedText(items: seq<Item>, b: byte)
    ensures TextOf(items + [Resync(b)]) == TextOf(items) + [b] && ResyncsOf(items + [Resync(b)]) == ResyncsOf(items) + 1
  {
    ItemsAppend(items, [Resync(b)]);
    RejectedReads(b);
  }

  lemma RejectedReads(b: byte)
    ensures TextOf([Resync(b)]) == [b] && ResyncsOf([Resync(b)]) == 1
  {
    assert [Resync(b)][1..] == [];
  }

  lemma WaitItem(s0: seq<byte>, items: seq<Item>, s: seq<byte>)
    requires Progress(s0, items, s) && Judge(s).Wait?
    ensures First(s0) == Scanned(items, s) && Yield(items) == None
  {
  }

  lemma ShortWaits(s: seq<byte>)
    ensures |s| < 4 ==> Judge(s).Wait?
  {
  }

  lemma EmitItem(s0: seq<byte>, items: seq<Item>, s: seq<byte>, f: Frame, n: nat)
    requires Progress(s0, items, s) && Judge(s) == Take(Emitted(f), n)
    ensures var more := items + [Emitted(f)];
      && First(s0) == Scanned(more, s[n..]) && Yield(more) == Some(f)
      && TextOf(more) == TextOf(items) && ResyncsOf(more) == ResyncsOf(items)
  {
    ItemsAppend(items, [Emitted(f)]);
  }

  lemma FirstOfMore(s: seq<byte>, later: seq<byte>)
    ensures Scan(s + later) == Join(First(s), Scan(First(s).rest + later))
  {
    var a := First(s);
    ScanInParts(s, later);
    FirstThenScan(s);
    ScanInParts(a.rest, later);
    JoinAssociates(a, Scan(a.rest), Scan(Scan(s).rest + later));
  }

  /** One call of the parser takes at most one frame off the stream, and leaves the rest of it untouched. */
  lemma TakeFirst(s: seq<byte>, later: seq<byte>)
    ensures var all, left := FramesOf(Scan(s + later).items), FramesOf(Scan(First(s).rest + later).items);
      && (Yield(First(s).items).Some? ==> all == [Yield(First(s).items).value] + left)
      && (Yield(First(s).items).None? ==> all == left && FramesOf(Scan(First(s).rest).items) == [])
  {
    FirstOfMore(s, later);
    FirstYields(s);
    ItemsAppend(First(s).items, Scan(First(s).rest + later).items);
  }

  // ---- waiting for the answer to a request ----

  datatype Reply = Answer(frame: Frame) | Nacked(code: half, command: byte, state: byte)
                 | Unexpected(command: byte) | NoAnswer | MalformedNack

  /** What a request makes of the frames that arrive, and the frames it leaves unread. */
  function Await(fs: seq<Frame>, sequence: word, command: byte): (Reply, seq<Frame>)
    requires command < 0x80
  {
    if fs == [] then (NoAnswer, [])
    else if fs[0].sequence != sequence then Await(fs[1..], sequence, command)
    else if fs[0].command == NACK then
      if |fs[0].payload| < 2 then (MalformedNack, fs[1..])
      else (Nacked(fs[0].flags, fs[0].payload[0], fs[0].payload[1]), fs[1..])
    else if fs[0].command != command + 0x80 then (Unexpected(fs[0].command), fs[1..])
    else (Answer(fs[0]), fs[1..])
  }

  // ---- the ordering rules of RUN ----

  datatype RunResult = Returned(rc: word) | RunNacked(code: half, command: byte, state: byte)
                     | DuplicateAck | CompleteBeforeAck | FrameBeforeAck(command: byte)
                     | NoAck | NoRunComplete | BadPayload(error: PayloadError) | BadNack

  datatype RunTrace = RunTrace(result: RunResult, late: nat, rest: seq<Frame>)

  function Delayed(t: RunTrace, n: nat): RunTrace { t.(late := t.late + n) }

  function Late(t: RunTrace): RunTrace { Delayed(t, 1) }

  /** A frame of an earlier exchange: counted, never acted on. RUN_COMPLETE is not held to the sequence. */
  predicate Straggler(f: Frame, sequence: word) {
    f.sequence != sequence && f.command != CMD_RUN_COMPLETE
  }

  /** What one frame means to a RUN that is waiting: skip it, note the ACK, or stop with a result. */
  datatype Turn = Skip | Begin | Stop(result: RunResult)

  function Consider(f: Frame, sequence: word, acked: bool): Turn {
    if Straggler(f, sequence) then Skip
    else if f.command == NACK then
      Stop(if |f.payload| < 2 then BadNack else RunNacked(f.flags, f.payload[0], f.payload[1]))
    else if f.command == ACK_RUN then if acked then Stop(DuplicateAck) else Begin
    else if f.command == CMD_RUN_COMPLETE then
      if !acked then Stop(CompleteBeforeAck)
      else
        var m := ParseMeasurement(f.payload);
        Stop(if m.Ok? then Returned(m.value.runRc) else BadPayload(m.error))
    else if !acked then Stop(FrameBeforeAck(f.command))
    else Skip
  }

  function RunOn(fs: seq<Frame>, sequence: word, acked: bool): RunTrace {
    if fs == [] then RunTrace(if acked then NoRunComplete else NoAck, 0, [])
    else
      match Consider(fs[0], sequence, acked)
      case Skip => Late(RunOn(fs[1..], sequence, acked))
      case Begin => RunOn(fs[1..], sequence, true)
      case Stop(result) => RunTrace(result, 0, fs[1..])
  }

  lemma ReturnedParses(f: Frame, sequence: word, acked: bool)
    requires Consider(f, sequence, acked).Stop? && Consider(f, sequence, acked).result.Returned?
    ensures ParseMeasurement(f.payload).Ok?
    ensures ParseMeasurement(f.payload).value.runRc == Consider(f, sequence, acked).result.rc
  {
  }

  predicate IsAck(f: Frame, sequence: word) { f.sequence == sequence && f.command == ACK_RUN }

  /** A frame that neither ends the exchange nor moves it on. */
  predicate Passed(f: Frame, sequence: word) {
    Straggler(f, sequence) || (f.command != NACK && f.command != ACK_RUN && f.command != CMD_RUN_COMPLETE)
  }

  /**
   The frames show an ACK of this RUN at `i`, a good RUN_COMPLETE at `j`, and nothing else that matters before `j`.
   */
  predicate Completes(fs: seq<Frame>, sequence: word, i: nat, j: nat, rc: word) {
    && i < j < |fs| && IsAck(fs[i], sequence)
    && (forall k :: 0 <= k < i ==> Straggler(fs[k], sequence))
    && (forall k :: i < k < j ==> Passed(fs[k], sequence))
    && fs[j].command == CMD_RUN_COMPLETE
    && ParseMeasurement(fs[j].payload).Ok? && ParseMeasurement(fs[j].payload).value.runRc == rc
  }

  /** After the ACK: every frame up to the RUN_COMPLETE at `j` is passed over. */
  predicate Finishes(fs: seq<Frame>, sequence: word, j: nat, rc: word) {
    && j < |fs| && (forall k :: 0 <= k < j ==> Passed(fs[k], sequence))
    && fs[j].command == CMD_RUN_COMPLETE
    && ParseMeasurement(fs[j].payload).Ok? && ParseMeasurement(fs[j].payload).value.runRc == rc
  }

  lemma {:induction false} FinishesReturns(fs: seq<Frame>, sequence: word, j: nat, rc: word)
    requires Finishes(fs, sequence, j, rc)
    ensures RunOn(fs, sequence, true).result == Returned(rc)
    decreases |fs|
  {
    if j > 0 {
      FinishesReturns(fs[1..], sequence, j - 1, rc);
    }
  }

  lemma {:induction false} ReturnsFinishes(fs: seq<Frame>, sequence: word, rc: word) returns (j: nat)
    requires RunOn(fs, sequence, true).result == Returned(rc)
    ensures Finishes(fs, sequence, j, rc)
    decreases |fs|
  {
    if Passed(fs[0], sequence) {
      j := ReturnsFinishes(fs[1..], sequence, rc);
      assert forall k :: 0 < k < j + 1 ==> fs[k] == fs[1..][k - 1];
      j := j + 1;
    } else {
      j := 0;
    }
  }

  lemma {:induction false} CompletesReturns(fs: seq<Frame>, sequence: word, i: nat, j: nat, rc: word)
    requires Completes(fs, sequence, i, j, rc)
    ensures RunOn(fs, sequence, false).result == Returned(rc)
    decreases |fs|
  {
    var rest := fs[1..];
    CompletesTail(fs, rest, sequence, i, j, rc);
    if i > 0 {
      CompletesReturns(rest, sequence, i - 1, j - 1, rc);
    } else {
      FinishesReturns(rest, sequence, j - 1, rc);
    }
  }

  lemma CompletesTail(fs: seq<Frame>, rest: seq<Frame>, sequence: word, i: nat, j: nat, rc: word)
    requires Completes(fs, sequence, i, j, rc) && rest == fs[1..]
    ensures i > 0 ==> Straggler(fs[0], sequence) && Completes(rest, sequence, i - 1, j - 1, rc)
    ensures i == 0 ==> IsAck(fs[0], sequence) && Finishes(rest, sequence, j - 1, rc)
  {
    assert forall k :: 0 < k < |fs| ==> fs[k] == rest[k - 1];
  }

  lemma CompletesLater(f: Frame, fs: seq<Frame>, sequence: word, i: nat, j: nat, rc: word)
    requires Straggler(f, sequence) && Completes(fs, sequence, i, j, rc)
    ensures Completes([f] + fs, sequence, i + 1, j + 1, rc)
  {
    var all := [f] + fs;
    assert all[i + 1] == fs[i] && all[j + 1] == fs[j];
    assert forall k :: 0 < k < |all| ==> all[k] == fs[k - 1];
  }

  lemma CompletesNow(f: Frame, fs: seq<Frame>, sequence: word, j: nat, rc: word)
    requires IsAck(f, sequence) && Finishes(fs, sequence, j, rc)
    ensures Completes([f] + fs, sequence, 0, j + 1, rc)
  {
    var all := [f] + fs;
    assert all[0] == f && all[j + 1] == fs[j];
    assert forall k :: 0 < k < |all| ==> all[k] == fs[k - 1];
  }

  /** What a RUN that returned has made of its first frame. */
  lemma ReturnedPast(fs: seq<Frame>, sequence: word, rc: word) returns (f: Frame, rest: seq<Frame>)
    requires RunOn(fs, sequence, false).result == Returned(rc)
    ensures fs == [f] + rest && |rest| < |fs|
    ensures if Straggler(f, sequence) then RunOn(rest, sequence, false).result == Returned(rc)
            else IsAck(f, sequence) && RunOn(rest, sequence, true).result == Returned(rc)
  {
    f, rest := fs[0], fs[1..];
  }

  lemma {:induction false} ReturnsCompletes(fs: seq<Frame>, sequence: word, rc: word) returns (i: nat, j: nat)
    requires RunOn(fs, sequence, false).result == Returned(rc)
    ensures Completes(fs, sequence, i, j, rc)
    decreases |fs|
  {
    var f, rest := ReturnedPast(fs, sequence, rc);
    if Straggler(f, sequence) {
      i, j := ReturnsCompletes(rest, sequence, rc);
      CompletesLater(f, rest, sequence, i, j, rc);
      i, j := i + 1, j + 1;
    } else {
      j := ReturnsFinishes(rest, sequence, rc);
      CompletesNow(f, rest, sequence, j, rc);
      i, j := 0, j + 1;
    }
  }

  /**
   RUN returns a code exactly when its ACK arrived once, first among the frames that matter, and a RUN_COMPLETE that
   parses followed: the code is the one in that record.
   */
  lemma RunReturnsIffCompletes(fs: seq<Frame>, sequence: word, rc: word)
    ensures RunOn(fs, sequence, false).result == Returned(rc) <==> exists i, j :: Completes(fs, sequence, i, j, rc)
  {
    if RunOn(fs, sequence, false).result == Returned(rc) {
      var i, j := ReturnsCompletes(fs, sequence, rc);
    }
    if exists i, j :: Completes(fs, sequence, i, j, rc) {
      var i, j :| Completes(fs, sequence, i, j, rc);
      CompletesReturns(fs, sequence, i, j, rc);
    }
  }

  // ---- the link ----

  /** A serial port: the bytes still to arrive before it falls silent, and the bytes written to it. */
  class SerialPort {
    var incoming: seq<byte>
    var written: seq<byte>

    constructor (incoming: seq<byte>)
      ensures this.incoming == incoming && written == []
    {
      this.incoming := incoming;
      written := [];
    }

    /** Hands over at most `n` of the bytes that are there, in pieces of any size; nothing only when all are gone. */
    method Read(n: nat) returns (chunk: seq<byte>)
      requires n > 0
      modifies this`incoming
      ensures chunk + incoming == old(incoming) && |chunk| <= n
      ensures chunk == [] ==> old(incoming) == []
    {
      var k: nat :| k <= n && k <= |incoming| && (incoming != [] ==> k > 0);
      chunk := incoming[..k];
      incoming := incoming[k..];
    }

    method Write(data: seq<byte>)
      modifies this`written
      ensures written == old(written) + data
    {
      written := written + data;
    }
  }

  class RunnerLink {
    const ser: SerialPort
    var buf: seq<byte>
    var seqNo: word
    var textLog: seq<byte>
    var resyncs: nat
    var lateFrames: nat
    var lastMeasurement: Option<Measured>

    constructor (ser: SerialPort)
      ensures this.ser == ser && buf == [] && seqNo == 0 && textLog == [] && resyncs == 0 && lateFrames == 0
      ensures lastMeasurement == None
    {
      this.ser := ser;
      buf, seqNo, textLog, resyncs, lateFrames, lastMeasurement := [], 0, [], 0, 0, None;
    }

    /** Everything received and not yet turned into a frame, and everything still to arrive. */
    ghost function Pending(): seq<byte>
      reads this, ser
    {
      buf + ser.incoming
    }

    /** The frames the link will read, in order. */
    ghost function Coming(): seq<Frame>
      reads this, ser
    {
      FramesOf(Scan(Pending()).items)
    }

    /** Stash the first `upto` bytes as text and drop them from the buffer. */
    method Harvest(upto: nat)
      requires upto <= |buf|
      modifies this`buf, this`textLog
      ensures buf == old(buf)[upto..] && textLog == old(textLog) + old(buf)[..upto]
    {
      textLog := textLog + buf[..upto];
      buf := buf[upto..];
    }

    /** bytearray.find for the magic: the first place it occurs, or the length of the buffer. */
    method FindMagic() returns (i: nat)
      ensures i <= |buf| && NoMagicBefore(buf, i) && (i < |buf| ==> HasMagic(buf[i..]))
    {
      i := 0;
      while i < |buf| && !HasMagic(buf[i..])
        invariant i <= |buf| && NoMagicBefore(buf, i)
      {
        i := i + 1;
      }
    }

    /** What the fields hold when the parser, started on `s0` with `log` and `count`, has dealt with `items`. */
    ghost predicate Parsing(s0: seq<byte>, log: seq<byte>, count: nat, items: seq<Item>)
      reads this
    {
      Progress(s0, items, buf) && textLog == log + TextOf(items) && resyncs == count + ResyncsOf(items)
    }

    /** Text up to the next magic, or all but three bytes of the buffer when there is none. */
    method DropNoise(ghost s0: seq<byte>, ghost log: seq<byte>, ghost items: seq<Item>)
      returns (found: bool, ghost more: seq<Item>)
      requires resyncs >= ResyncsOf(items) && Parsing(s0, log, resyncs - ResyncsOf(items), items)
      modifies this`buf, this`textLog
      ensures Parsing(s0, log, old(resyncs) - ResyncsOf(items), more) && |buf| <= |old(buf)|
      ensures found ==> HasMagic(buf)
      ensures !found ==> Judge(buf).Wait?
    {
      var idx := FindMagic();
      var drop := if idx < |buf| then idx else if |buf| > 3 then |buf| - 3 else 0;
      found := idx < |buf|;
      more := SkipItems(s0, items, buf, drop, log);
      ShortWaits(buf[drop..]);
      Harvest(drop);
    }

    /** A bogus candidate: count it, step one byte and keep looking. */
    method StepOver(ghost s0: seq<byte>, ghost log: seq<byte>, ghost items: seq<Item>) returns (ghost more: seq<Item>)
      requires resyncs >= ResyncsOf(items) && Parsing(s0, log, resyncs - ResyncsOf(items), items)
      requires buf != [] && Judge(buf) == Take(Resync(buf[0]), 1)
      modifies this`buf, this`textLog, this`resyncs
      ensures Parsing(s0, log, old(resyncs) - ResyncsOf(items), more) && |buf| < |old(buf)|
    {
      RejectItem(s0, items, buf);
      more := items + [Resync(buf[0])];
      resyncs := resyncs + 1;
      Harvest(1);
    }

    /** _try_parse */
    method TryParse() returns (frame: Option<Frame>, ghost items: seq<Item>)
      modifies this`buf, this`textLog, this`resyncs
      ensures First(old(buf)) == Scanned(items, buf) && frame == Yield(items)
      ensures textLog == old(textLog) + TextOf(items) && resyncs == old(resyncs) + ResyncsOf(items)
    {
      items := [];
      ghost var s0, log, count := buf, textLog, resyncs;
      StartProgress(buf);
      while true
        invariant Parsing(s0, log, count, items)
        decreases |buf|
      {
        var found;
        found, items := DropNoise(s0, log, items);
        if !found {
          WaitItem(s0, items, buf);
          return None, items;
        }
        var done;
        done, frame, items := TryCandidate(s0, log, items);
        if done {
          return;
        }
      }
    }

    /** A candidate frame at the front of the buffer: wait for more of it, step over it, or take it. */
    method TryCandidate(ghost s0: seq<byte>, ghost log: seq<byte>, ghost items: seq<Item>)
      returns (done: bool, frame: Option<Frame>, ghost more: seq<Item>)
      requires resyncs >= ResyncsOf(items) && Parsing(s0, log, resyncs - ResyncsOf(items), items) && HasMagic(buf)
      modifies this`buf, this`textLog, this`resyncs
      ensures textLog == log + TextOf(more) && resyncs == old(resyncs) - ResyncsOf(items) + ResyncsOf(more)
      ensures if done then First(s0) == Scanned(more, buf) && frame == Yield(more)
              else |buf| < |old(buf)| && Parsing(s0, log, old(resyncs) - ResyncsOf(items), more)
    {
      more, frame, done := items, None, true;
      if |buf| < HEADER_SIZE {
        WaitItem(s0, items, buf);
        return;
      }
      if PayloadLength(buf) > MAX_PAYLOAD {
        done := false;
        more := StepOver(s0, log, items);
        return;
      }
      var total := FrameLength(buf);
      if |buf| < total {
        WaitItem(s0, items, buf);
        return;
      }
      if !CrcMatches(buf) {
        done := false;
        more := StepOver(s0, log, items);
        return;
      }
      frame := Some(Decode(buf));
      EmitItem(s0, items, buf, Decode(buf), total);
      more := items + [Emitted(Decode(buf))];
      buf := buf[total..];
    }

    /**
     read_frame: returns the next frame of the stream, whatever pieces it arrives in, or nothing once the port has
     fallen silent with no complete frame left.
     */
    method ReadFrame() returns (frame: Option<Frame>)
      modifies this`buf, this`textLog, this`resyncs, ser`incoming
      ensures frame == (if old(Coming()) == [] then None else Some(old(Coming())[0]))
      ensures Coming() == (if old(Coming()) == [] then [] else old(Coming())[1..])
    {
      while true
        invariant Coming() == old(Coming())
        decreases |ser.incoming|
      {
        ghost var before, s := Pending(), buf;
        ghost var items;
        frame, items := TryParse();
        TakeFirst(s, ser.incoming);
        if frame.Some? {
          return;
        }
        var chunk := ser.Read(1024);
        if chunk == [] {
          assert buf + [] == buf;
          return None;
        }
        assert (buf + chunk) + ser.incoming == buf + (chunk + ser.incoming);
        buf := buf + chunk;
      }
    }

    /** Sends one frame under the next sequence number. */
    method Send(command: byte, payload: Payload)
      modifies this`seqNo, ser`written
      ensures seqNo == Add32(old(seqNo), 1)
      ensures ser.written == old(ser.written) + Encode(Frame(RUNNER_VERSION, command, 0, seqNo, payload))
    {
      seqNo := Add32(seqNo, 1);
      ser.Write(Encode(Frame(RUNNER_VERSION, command, 0, seqNo, payload)));
    }

    /** request */
    method Request(command: byte, payload: Payload) returns (r: Reply)
      requires command < 0x80
      modifies this`seqNo, this`buf, this`textLog, this`resyncs, ser
      ensures seqNo == Add32(old(seqNo), 1)
      ensures ser.written == old(ser.written) + Encode(Frame(RUNNER_VERSION, command, 0, seqNo, payload))
      ensures (r, Coming()) == Await(old(Coming()), seqNo, command)
    {
      Send(command, payload);
      ghost var fs := Coming();
      while true
        invariant Coming() == fs && Await(fs, seqNo, command) == Await(old(Coming()), seqNo, command)
        invariant seqNo == Add32(old(seqNo), 1)
        invariant ser.written == old(ser.written) + Encode(Frame(RUNNER_VERSION, command, 0, seqNo, payload))
        decreases |fs|
      {
        var next := ReadFrame();
        if next.None? {
          return NoAnswer;
        }
        fs := fs[1..];
        var frame := next.value;
        if frame.sequence != seqNo {
          continue;
        }
        if frame.command == NACK {
          return if |frame.payload| < 2 then MalformedNack else Nacked(frame.flags, frame.payload[0], frame.payload[1]);
        }
        if frame.command != command + 0x80 {
          return Unexpected(frame.command);
        }
        return Answer(frame);
      }
    }

    /** run, in the measure-v2 variant of the protocol */
    method Run() returns (r: RunResult)
      modifies this, ser
      ensures seqNo == Add32(old(seqNo), 1)
      ensures ser.written == old(ser.written) + Encode(Frame(RUNNER_VERSION, CMD_RUN, 0, seqNo, []))
      ensures lateFrames >= old(lateFrames)
      ensures RunTrace(r, lateFrames - old(lateFrames), Coming()) == RunOn(old(Coming()), seqNo, false)
      ensures r.Returned? ==> lastMeasurement.Some? && lastMeasurement.value.runRc == r.rc
      ensures !r.Returned? ==> lastMeasurement == old(lastMeasurement)
    {
      Send(CMD_RUN, []);
      r := AwaitCompletion();
    }

    /** The receive loop of run. */
    method AwaitCompletion() returns (r: RunResult)
      modifies this`buf, this`textLog, this`resyncs, this`lateFrames, this`lastMeasurement, ser`incoming
      ensures lateFrames >= old(lateFrames)
      ensures RunTrace(r, lateFrames - old(lateFrames), Coming()) == RunOn(old(Coming()), seqNo, false)
      ensures r.Returned? ==> lastMeasurement.Some? && lastMeasurement.value.runRc == r.rc
      ensures !r.Returned? ==> lastMeasurement == old(lastMeasurement)
    {
      var acked := false;
      ghost var fs := Coming();
      ghost var goal := RunOn(fs, seqNo, false);
      while true
        invariant lateFrames >= old(lateFrames) && lastMeasurement == old(lastMeasurement) && Coming() == fs
        invariant Delayed(RunOn(fs, seqNo, acked), lateFrames - old(lateFrames)) == goal
        decreases |fs|
      {
        var next := ReadFrame();
        if next.None? {
          return if acked then NoRunComplete else NoAck;
        }
        fs := fs[1..];
        var turn := Consider(next.value, seqNo, acked);
        if turn.Skip? {
          lateFrames := lateFrames + 1;
        } else if turn.Begin? {
          acked := true;
        } else {
          r := turn.result;
          if r.Returned? {
            ReturnedParses(next.value, seqNo, acked);
            lastMeasurement := Some(ParseMeasurement(next.value.payload).value);
          }
          return;
        }
      }
    }
  }
}
