/** What the wrapped test hands to the vendor's buffer, byte by byte, and the checksum GET_RESULT then serves of it. */
module CopyBack {
  import opened Bytes
  import opened Crc32
  import opened Frames
  import opened Memory
  import opened Pmwl
  import opened Placement
  import opened PmwlFirmware
  import opened PmwlRun
  import opened OfmCompare
  import opened Runner
  import opened Histories
  import opened RunHistory
  import opened VendorRun
  import OfmVerdict

  // ---- the copied bytes ----

  /** The NPU's own bytes reach the arena. */
  lemma LeftInArena(m: Space, h: Header, v: Vendor, i: nat)
    requires Ready(m, h, v.stackTop) && Inside(Placed(h).arena, h.arenaSize, i)
    ensures i < U32 && OfmVerdict.Left(m, h, v)[i] == v.leaves[i]
  {
    PlacementIsSeparate(h, v.stackTop);
  }

  lemma CopiedFrom(n: seq<byte>, h: Header, outSize: nat, x: nat, y: nat)
    requires |n| == U32 && Placeable(h) && h.outputs != [] && Placed(h).arena + h.arenaSize <= U32
    requires VENDOR_OUT + outSize <= U32 && x < h.outputs[0].len && x < outSize && y == h.outputs[0].arenaOff + x
    ensures y < h.arenaSize && VENDOR_OUT + |Produced(n, h, outSize)| <= U32
    ensures Store(n, VENDOR_OUT, Produced(n, h, outSize))[VENDOR_OUT + x] == n[Placed(h).arena + y]
  {
    assert InBounds(h.outputs[0], h.arenaSize, h.totalLen);
    ProducedByte(n, h, outSize, x, y);
    StoredByte(n, VENDOR_OUT, Produced(n, h, outSize), VENDOR_OUT + x);
  }

  lemma RunCopiesByte(m: Space, h: Header, v: Vendor, x: nat, y: nat)
    requires Ready(m, h, v.stackTop) && h.outputs != [] && ValidVendor(v)
    requires x < h.outputs[0].len && x < v.outSize && y == h.outputs[0].arenaOff + x
    ensures Placed(h).arena + y < U32 && AfterRun(m, h, v)[VENDOR_OUT + x] == v.leaves[Placed(h).arena + y]
  {
    PlacementIsSeparate(h, v.stackTop);
    CopiedFrom(OfmVerdict.Left(m, h, v), h, v.outSize, x, y);
    LeftInArena(m, h, v, Placed(h).arena + y);
  }

  /** The header of the blob that a test which runs through has accepted. */
  lemma RunsReady(m: Space, total: word, v: Vendor) returns (h: Header)
    requires Runnable(m, total) && ValidVendor(v) && RunsThrough(m, total, v)
    ensures ParseHeader(PmwlRun.Window(m)) == Ok(h) && Ready(m, h, v.stackTop) && h.outputs != []
    ensures AfterTest(m, total, v) == AfterRun(m, h, v)
  {
    AcceptedHasOutput(PmwlRun.Window(m), total);
    h := ParseHeader(PmwlRun.Window(m)).value;
  }

  /**
   Once a test has run through, the vendor's buffer holds the first OFM as the NPU left it in the arena, up to the
   shorter of the OFM and the buffer, and every other byte of .sec_noinit is as it was.
   */
  lemma CopyBackIsExact(m: Space, total: word, v: Vendor, i: nat) returns (h: Header, x: int, y: int)
    requires Runnable(m, total) && ValidVendor(v) && RunsThrough(m, total, v) && Inside(NOINIT_BASE, NOINIT_SIZE, i)
    ensures ParseHeader(PmwlRun.Window(m)) == Ok(h) && |h.knobs| == KNOB_WORDS && h.outputs != []
    ensures x == i - VENDOR_OUT && y == h.outputs[0].arenaOff + x
    ensures if 0 <= x < h.outputs[0].len && x < v.outSize then
              Placed(h).arena + y < U32 && AfterTest(m, total, v)[i] == v.leaves[Placed(h).arena + y]
            else AfterTest(m, total, v)[i] == m[i]
  {
    h := RunsReady(m, total, v);
    x := i - VENDOR_OUT;
    y := h.outputs[0].arenaOff + x;
    if 0 <= x < h.outputs[0].len && x < v.outSize {
      RunCopiesByte(m, h, v, x, y);
    } else {
      RunKeepsByte(m, h, v, i);
    }
  }

  lemma BufferByte(m: Space, h: Header, v: Vendor, at: nat, x: nat)
    requires Ready(m, h, v.stackTop) && h.outputs != [] && ValidVendor(v)
    requires x < v.outSize <= h.outputs[0].len && at == Placed(h).arena + h.outputs[0].arenaOff
    ensures at + v.outSize <= U32
    ensures Load(AfterRun(m, h, v), VENDOR_OUT, v.outSize)[x] == Load(v.leaves, at, v.outSize)[x]
  {
    BufferRange(h, v, at);
    var y := h.outputs[0].arenaOff + x;
    RunCopiesByte(m, h, v, x, y);
    LoadedByte(AfterRun(m, h, v), VENDOR_OUT, v.outSize, x);
    LoadedByte(v.leaves, at, v.outSize, x);
    assert at + x == Placed(h).arena + y;
  }

  lemma BufferRange(h: Header, v: Vendor, at: nat)
    requires Placeable(h) && SRAM_BASE <= v.stackTop && !OnChipRefused(h, v.stackTop) && h.outputs != []
    requires v.outSize <= h.outputs[0].len && at == Placed(h).arena + h.outputs[0].arenaOff
    ensures at + v.outSize <= U32
  {
    PlacementIsSeparate(h, v.stackTop);
    assert InBounds(h.outputs[0], h.arenaSize, h.totalLen);
  }

  /** A buffer no longer than the OFM is filled with it. */
  lemma BufferIsOfm(m: Space, h: Header, v: Vendor, at: nat)
    requires Ready(m, h, v.stackTop) && h.outputs != [] && ValidVendor(v) && v.outSize <= h.outputs[0].len
    requires at == Placed(h).arena + h.outputs[0].arenaOff
    ensures at + v.outSize <= U32
    ensures Load(AfterRun(m, h, v), VENDOR_OUT, v.outSize) == Load(v.leaves, at, v.outSize)
  {
    BufferRange(h, v, at);
    var a, b := Load(AfterRun(m, h, v), VENDOR_OUT, v.outSize), Load(v.leaves, at, v.outSize);
    forall x | 0 <= x < v.outSize
      ensures a[x] == b[x]
    {
      BufferByte(m, h, v, at, x);
    }
  }

  /**
   The outputs that are compared with the references are the bytes the NPU left at each output's place in the arena.
   */
  lemma OutputsAreLeft(m: Space, h: Header, v: Vendor, i: nat, k: nat)
    requires Ready(m, h, v.stackTop) && i < |h.outputs| && k < h.outputs[i].len
    ensures var n, from := OfmVerdict.Left(m, h, v), Placed(h).arena + h.outputs[i].arenaOff + k;
      && AllInMemory(n, Placed(h).arena, h.outputs) && from < U32
      && TotalLength(h.outputs[..i]) + k < |Outputs(n, Placed(h).arena, h.outputs)|
      && Outputs(n, Placed(h).arena, h.outputs)[TotalLength(h.outputs[..i]) + k] == v.leaves[from]
  {
    var n := OfmVerdict.Left(m, h, v);
    OutputsInMemory(n, h, v.stackTop);
    OutputsHold(n, Placed(h).arena, h.outputs, i, k);
    assert InBounds(h.outputs[i], h.arenaSize, h.totalLen);
    LeftInArena(m, h, v, Placed(h).arena + h.outputs[i].arenaOff + k);
  }

  // ---- what the host is served ----

  /** Events among which no RUN is accepted leave the number and the outcome of the last one as they are. */
  lemma {:induction false} NoRunKeepsLog(s: State, log: seq<Ran>, es: seq<Event>)
    requires Inv(s, log) && Can(RUNNER, s, es) && Log(RUNNER, s, es) == []
    ensures Inv(After(RUNNER, s, es), log)
    decreases |es|
  {
    if es != [] {
      StepTracks(s, es[0], log);
      assert RUNNER.logs(s, es[0]) == [] && log + [] == log;
      NoRunKeepsLog(Step(s, es[0]).s, log, es[1..]);
    }
  }

  /** The range asked for is the vendor's buffer. */
  predicate AsksForBuffer(payload: Payload, outSize: nat) {
    |payload| == 12 && Rd32(payload, 0) == VENDOR_OUT && Rd32(payload, 4) == outSize
  }

  /** The answer names the buffer and carries the CRC of these bytes. */
  predicate CarriesCrc(f: Frame, sequence: word, outSize: nat, data: seq<byte>)
    requires outSize < U32
  {
    f == Frame(RUNNER_VERSION, CMD_GET_RESULT + 0x80, 0, sequence, Words([0, VENDOR_OUT, outSize, Crc(data)]))
  }

  lemma ResultCarries(sequence: word, payload: Payload, r: Ran, outSize: word, data: seq<byte>)
    requires AsksForBuffer(payload, outSize) && InNoinit(VENDOR_OUT, outSize)
    requires Load(r.after, VENDOR_OUT, outSize) == data
    ensures CarriesCrc(ResultOf(sequence, payload, r), sequence, outSize, data)
  {
    FourWords(0, VENDOR_OUT, outSize, Crc(data));
  }

  lemma FourWords(a: word, b: word, c: word, d: word)
    ensures Words([a, b, c, d]) == Le32(a) + Le32(b) + Le32(c) + Le32(d)
  {
    assert [a, b, c, d][1..] == [b, c, d] && [b, c, d][1..] == [c, d] && [c, d][1..] == [d] && [d][1..] == [];
    assert Words([d]) == Le32(d) && Words([c, d]) == Le32(c) + Le32(d);
    assert Words([b, c, d]) == Le32(b) + (Le32(c) + Le32(d));
    assert Le32(a) + (Le32(b) + (Le32(c) + Le32(d))) == Le32(a) + Le32(b) + Le32(c) + Le32(d);
  }

  lemma ServedBuffer(r: Ran, m: Space, h: Header, v: Vendor, sequence: word, payload: Payload, n: nat,
                     at: nat)
    requires Ready(m, h, v.stackTop) && h.outputs != [] && ValidVendor(v) && v.outSize <= h.outputs[0].len
    requires r.after == AfterRun(m, h, v) && Asks(payload, n) && AsksForBuffer(payload, v.outSize)
    requires at == Placed(h).arena + h.outputs[0].arenaOff
    ensures at + v.outSize <= U32 && v.outSize < U32
    ensures CarriesCrc(ResultOf(sequence, payload, r), sequence, v.outSize, v.leaves[at..at + v.outSize])
  {
    BufferIsOfm(m, h, v, at);
    ResultCarries(sequence, payload, r, v.outSize, v.leaves[at..at + v.outSize]);
  }

  lemma RunThenOthers(s: State, log: seq<Ran>, e: Event, es: seq<Event>)
    requires Inv(s, log) && Possible(s, e) && IsRun(s, e)
    requires Can(RUNNER, Step(s, e).s, es) && Log(RUNNER, Step(s, e).s, es) == []
    ensures Inv(After(RUNNER, Step(s, e).s, es), log + [RanBy(s, e)])
  {
    StepTracks(s, e, log);
    NoRunKeepsLog(Step(s, e).s, log + [RanBy(s, e)], es);
  }

  lemma ServedAfter(s: State, log: seq<Ran>, e: Event, es: seq<Event>, g: Event) returns (d: Did)
    requires Inv(s, log) && |log| + 1 < U32 && Possible(s, e) && IsRun(s, e)
    requires Can(RUNNER, Step(s, e).s, es) && Log(RUNNER, Step(s, e).s, es) == []
    requires Possible(After(RUNNER, Step(s, e).s, es), g) && IsRequest(g, CMD_GET_RESULT)
    ensures d == Step(After(RUNNER, Step(s, e).s, es), g)
    ensures Served(d) ==>
      Asks(g.heard.payload, |log| + 1) && d.out == [ResultOf(g.heard.sequence, g.heard.payload, RanBy(s, e))]
  {
    var u, all := After(RUNNER, Step(s, e).s, es), log + [RanBy(s, e)];
    d := Step(u, g);
    RunThenOthers(s, log, e, es);
    FreshInState(u, all, g);
    Appended(log, RanBy(s, e));
  }

  /** A served answer carries the CRC of what the NPU left at `at`. */
  predicate ServesLeft(d: Did, g: Heard, n: nat, v: Vendor, ofm: nat, at: nat)
    requires g.Request?
  {
    Served(d) ==>
      && |g.payload| == 12 && Rd32(g.payload, 8) == n && v.outSize < U32
      && (v.outSize <= ofm ==>
            at + v.outSize <= U32 && |d.out| == 1
            && CarriesCrc(d.out[0], g.sequence, v.outSize, v.leaves[at..at + v.outSize]))
  }

  lemma ServedLeft(d: Did, g: Heard, n: nat, r: Ran, m: Space, h: Header, v: Vendor, at: nat)
    requires Ready(m, h, v.stackTop) && h.outputs != [] && ValidVendor(v) && r.after == AfterRun(m, h, v)
    requires g.Request? && AsksForBuffer(g.payload, v.outSize) && at == Placed(h).arena + h.outputs[0].arenaOff
    requires Served(d) ==> Asks(g.payload, n) && d.out == [ResultOf(g.sequence, g.payload, r)]
    ensures ServesLeft(d, g, n, v, h.outputs[0].len, at)
  {
    if Served(d) && v.outSize <= h.outputs[0].len {
      ServedBuffer(r, m, h, v, g.sequence, g.payload, n, at);
    }
  }

  /**
   The checksum served is that of the NPU's own bytes. A RUN of the wrapped test runs through; then come any events
   among which no RUN is accepted, and a GET_RESULT for the vendor's buffer. If it is served, it names that RUN, and if
   the first OFM fills the buffer, the answer carries the CRC of its first `outSize` bytes as the NPU left them.
   */
  lemma ServedIsWhatNpuLeft(s: State, log: seq<Ran>, e: Event, v: Vendor, es: seq<Event>, g: Event)
    returns (h: Header, at: nat)
    requires Inv(s, log) && |log| + 1 < U32 && Possible(s, e) && IsRun(s, e) && CallsPmwl(s, e.env.run, v)
    requires RunsThrough(WithPoison(s), s.model.total, v)
    requires Can(RUNNER, Step(s, e).s, es) && Log(RUNNER, Step(s, e).s, es) == []
    requires Possible(After(RUNNER, Step(s, e).s, es), g) && IsRequest(g, CMD_GET_RESULT)
    requires AsksForBuffer(g.heard.payload, v.outSize)
    ensures ParseHeader(PmwlRun.Window(WithPoison(s))) == Ok(h) && h.outputs != [] && |h.knobs| == KNOB_WORDS
    ensures at == Placed(h).arena + h.outputs[0].arenaOff
    ensures ServesLeft(Step(After(RUNNER, Step(s, e).s, es), g), g.heard, |log| + 1, v, h.outputs[0].len, at)
  {
    h := RunsReady(WithPoison(s), s.model.total, v);
    at := Placed(h).arena + h.outputs[0].arenaOff;
    var d := ServedAfter(s, log, e, es, g);
    ServedLeft(d, g.heard, |log| + 1, RanBy(s, e), WithPoison(s), h, v, at);
  }
}
