/** The smallest workload whose skipped NPU goes unnoticed: four output bytes, in the first run after boot. */
module SkippedNpuExample {
  import opened Bytes
  import opened Frames
  import opened Memory
  import opened RunRecord
  import opened Pmwl
  import opened Placement
  import opened PackedPlacement
  import opened PmwlRun
  import opened Runner
  import opened Histories
  import opened RunHistory
  import opened VendorRun
  import opened PmwlHistory
  import opened SkippedNpu
  import opened OfmVerdict
  import Upload

  /**
   One input byte at offset 0 of the arena and four output bytes at offset 8, behind a command stream that only stops.
   */
  const INFO: Info := Info([0x00, 0x00, 0xFF, 0xFF], [], 16, 0, [(0, 1)], [(8, 4)])
  const IFMS: seq<seq<byte>> := [[7]]
  const GOLDS: seq<seq<byte>> := [[1, 2, 3, 4]]

  lemma SmallSections()
    ensures |Sections(IFMS + GOLDS)| == 32
    ensures Places(80, IFMS + GOLDS) == [80, 96]
  {
    var parts := IFMS + GOLDS;
    assert parts[1..] == GOLDS && |GOLDS[1..]| == 0;
    assert Align(1) == 16 && Align(4) == 16;
    assert Sections(parts) == Padded(parts[0]) + (Padded(parts[1]) + []);
    assert Places(80, parts) == [80] + ([96] + Places(112, []));
  }

  lemma SmallPlan()
    ensures MakePlan(INFO, IFMS, GOLDS, KnobWords([])) == Plan(1, 64, 80, [80, 96], 112)
  {
    var k := KnobWords([]);
    assert AllOff(k);
    assert Align(4) == 16 && Align(0) == 0;
    SmallSections();
  }

  lemma SmallPacks() returns (blob: seq<byte>)
    ensures Packs(INFO, IFMS, GOLDS, [], blob) && |blob| == 112
  {
    SmallPlan();
    var k, p := KnobWords([]), Plan(1, 64, 80, [80, 96], 112);
    var front := FrontWords(INFO, k, p);
    assert front == HeaderPart(INFO, p);
    assert AllWords(front);
    assert CheckTensors(INFO.inputs + INFO.outputs, IFMS + GOLDS, 16).None?;
    blob := Words(AsWords(front)) + Sections(Data(INFO, IFMS, GOLDS));
    assert Pack(INFO, IFMS, GOLDS, []) == Ok(blob);
    PackThenParse(INFO, IFMS, GOLDS, [], blob);
  }

  /** What the firmware reads in the small blob's header, and that it can place it. */
  ghost predicate IsSmall(h: Header) {
    && |h.knobs| == KNOB_WORDS && (forall i :: 0 <= i < KNOB_WORDS ==> h.knobs[i] == OFF)
    && CommandInBlob(h) && ConstInBlob(h) && h.arenaSize == 16 && h.fastSize == 0 && h.cmsLen == 4 && h.constLen == 0
    && h.totalLen == 112
    && |h.inputs| == 1 && h.inputs[0].arenaOff == 0 && h.inputs[0].len == 1
    && |h.outputs| == 1 && h.outputs[0].arenaOff == 8 && h.outputs[0].len == 4
  }

  lemma SmallHeader(blob: seq<byte>)
    requires Packs(INFO, IFMS, GOLDS, [], blob) && |blob| == 112
    ensures ParseHeader(blob).Ok? && IsSmall(ParseHeader(blob).value)
  {
    PackThenParse(INFO, IFMS, GOLDS, [], blob);
    PackedIsSectioned(INFO, IFMS, GOLDS, [], blob);
    var h, places := ParseHeader(blob).value, PlanOf(INFO, IFMS, GOLDS, []).places;
    assert Describes(h.inputs[0], INFO.inputs[0], places[..1][0]);
    assert Describes(h.outputs[0], INFO.outputs[0], places[1..][0]);
  }

  lemma SmallFits(h: Header)
    requires IsSmall(h)
    ensures Fits(h) && !OnChip(h) && !TaRefused(h)
    ensures forall v: nat :: CopiedBytes(h, v) <= 4
    ensures forall x :: 0 <= x < 4 ==> Uncovered(h, x)
  {
    assert Up256(4) == 256 && Up256(0) == 0 && Up256(16) == 256 && Up256(112) == 256;
    forall x | 0 <= x < 4
      ensures Uncovered(h, x)
    {
      assert !Covers(h.inputs[0], 8 + x);
    }
  }

  lemma SmallWorkload() returns (blob: seq<byte>)
    ensures |blob| == 112 && Workload(INFO, IFMS, GOLDS, [], blob)
    ensures IsSmall(ParseHeader(blob).value)
  {
    blob := SmallPacks();
    SmallHeader(blob);
    SmallFits(ParseHeader(blob).value);
  }

  // ---- the upload ----

  const NO_SEAM: Seam := Seam(0, 0, 0, true, 0, 0, NO_EVENTS, 0, 0, 0)

  /** Hardware that saw nothing but time pass. */
  const READINGS: Readings := Readings(
    NO_EVENTS + NO_EVENTS + NO_EVENTS + NO_EVENTS + [0, 0, 0, 0], true, 0, 1,
    0, 0, 0, 0, 0, true, 0, 0, 0, 0, 0, 0, 0, 0, 0, 0, 0, 0, NO_SEAM, OfmComparison(0, 0, 0))

  const HARDWARE: Probe := Probe(true, true, 8)

  /** Vendor code that, wherever the wrapped test is defined, is that test. */
  function Called(m: Space, total: word, v: Vendor): Space
    requires ValidVendor(v)
  {
    if Runnable(m, total) then AfterTest(m, total, v) else m
  }

  function Calling(v: Vendor): (Space, word) -> Space
    requires ValidVendor(v)
  {
    (m: Space, total: word) => Called(m, total, v)
  }

  function EnvOf(effect: (Space, word) -> Space): Env { Env([], HARDWARE, RunEnv(0, effect, READINGS, 0)) }

  function Brings(f: Frame, effect: (Space, word) -> Space): Event {
    Event(0, 0, Request(f.command, f.sequence, f.payload), EnvOf(effect))
  }

  function BringAll(fs: seq<Frame>, effect: (Space, word) -> Space): (es: seq<Event>)
    ensures Upload.AllDelivered(es, fs)
  {
    seq(|fs|, i requires 0 <= i < |fs| => Brings(fs[i], effect))
  }

  lemma {:induction false} NoRunsNoLog(s: State, es: seq<Event>)
    requires Can(RUNNER, s, es) && forall i :: 0 <= i < |es| ==> es[i].heard.Request? && es[i].heard.command != CMD_RUN
    ensures Log(RUNNER, s, es) == []
    decreases |es|
  {
    if es != [] {
      NoRunsNoLog(Step(s, es[0]).s, es[1..]);
    }
  }

  lemma {:induction false} NumberedCommands(cs: seq<Upload.Command>, last: word)
    requires forall i :: 0 <= i < |cs| ==> cs[i].code != CMD_RUN
    ensures forall i :: 0 <= i < |cs| ==> Upload.Numbered(cs, last)[i].command != CMD_RUN
    decreases |cs|
  {
    if cs != [] {
      NumberedCommands(cs[1..], Add32(last, 1));
    }
  }

  lemma {:induction false} ChunksDoNotRun(blob: seq<byte>, off: nat)
    requires off <= |blob| < U32
    ensures forall i :: 0 <= i < |Upload.ChunkCommands(blob, off)| ==>
      Upload.ChunkCommands(blob, off)[i].code != CMD_RUN
    decreases |blob| - off
  {
    if off < |blob| {
      ChunksDoNotRun(blob, off + Upload.ChunkSize(blob, off));
    }
  }

  /** The machine after boot and the upload of a blob, with no RUN so far. */
  lemma UploadedOnce(mem: Space, blob: seq<byte>) returns (up: seq<Event>)
    requires 1 <= |blob| <= STAGING_SIZE
    ensures Can(RUNNER, Booted(mem), up) && Log(RUNNER, Booted(mem), up) == []
    ensures Upload.Uploaded(After(RUNNER, Booted(mem), up), blob, InputReady)
  {
    var fs := Upload.Numbered(Upload.PrimeCommands(blob), 0);
    up := BringAll(fs, (m, total) => m);
    BootIsSound(mem);
    var t := Upload.UploadDelivers(Booted(mem), up, blob, 0);
    SameRun(TALKING, RUNNER, Booted(mem), up);
    ChunksDoNotRun(blob, 0);
    NumberedCommands(Upload.PrimeCommands(blob), 0);
    NoRunsNoLog(Booted(mem), up);
  }

  // ---- the run ----

  /** The small blob is in staging, and vendor `v` runs it through without its NPU writing anything. */
  ghost predicate IdlesOn(s: State, v: Vendor) {
    && ValidVendor(v) && v.rc == 0 && v.honoured && v.outSize == 4
    && Runnable(WithPoison(s), 112) && RunsThrough(WithPoison(s), 112, v)
    && s.model.total == 112 && IsSmall(StagedHeader(s)) && Ready(WithPoison(s), StagedHeader(s), v.stackTop)
    && NpuSkipped(WithPoison(s), StagedHeader(s), v)
  }

  lemma NothingWritten(m: Space, h: Header, v: Vendor)
    requires Ready(m, h, v.stackTop) && v.leaves == Prepared(m, h, v.stackTop)
    ensures NpuSkipped(m, h, v)
  {
  }

  lemma SmallRunsThrough(s: State, blob: seq<byte>, v: Vendor)
    requires |blob| == 112 && Workload(INFO, IFMS, GOLDS, [], blob) && HoldsBlob(s, 112, blob) && ValidVendor(v)
    ensures s.model.total == 112 && Runnable(WithPoison(s), 112) && RunsThrough(WithPoison(s), 112, v)
    ensures IsSmall(StagedHeader(s)) && Ready(WithPoison(s), StagedHeader(s), v.stackTop)
  {
    SmallHeader(blob);
    SmallFits(ParseHeader(blob).value);
    WorkloadIsRunnable(s, INFO, IFMS, GOLDS, [], blob);
    WorkloadIsReady(s, v, INFO, IFMS, GOLDS, [], blob);
  }

  /** A vendor whose NPU leaves memory exactly as the placement prepared it, and whose code is content. */
  lemma IdleVendor(s: State, blob: seq<byte>) returns (v: Vendor)
    requires |blob| == 112 && Workload(INFO, IFMS, GOLDS, [], blob) && HoldsBlob(s, 112, blob)
    ensures IdlesOn(s, v)
  {
    var idle := Vendor(SRAM_BASE, 4, WithPoison(s), 0, true);
    SmallRunsThrough(s, blob, idle);
    v := Vendor(SRAM_BASE, 4, Prepared(WithPoison(s), StagedHeader(s), SRAM_BASE), 0, true);
    SmallRunsThrough(s, blob, v);
    NothingWritten(WithPoison(s), StagedHeader(s), v);
  }

  function RunEvent(v: Vendor): Event
    requires ValidVendor(v)
  {
    Brings(Frame(RUNNER_VERSION, CMD_RUN, 0, 6, []), Calling(v))
  }

  /** The host's request for the first run's result, over the four bytes the vendor's buffer received. */
  const GET_EVENT: Event :=
    Brings(Frame(RUNNER_VERSION, CMD_GET_RESULT, 0, 7, Le32(VENDOR_OUT) + (Le32(4) + Le32(1))), (m, total) => m)

  lemma AsksForFirst()
    ensures IsRequest(GET_EVENT, CMD_GET_RESULT) && Asks(GET_EVENT.heard.payload, 1)
  {
    var p := Le32(VENDOR_OUT) + (Le32(4) + Le32(1));
    assert p[0..4] == Le32(VENDOR_OUT) && p[4..8] == Le32(4) && p[8..12] == Le32(1);
    ReadSlice(p, 0, VENDOR_OUT);
    ReadSlice(p, 4, 4);
    ReadSlice(p, 8, 1);
  }

  lemma FirstIsNotTheA5Run()
    ensures !PoisonedLikeOfm(1, 4)
  {
    FirstRunPoisonIsNotA5();
    ShortPoison(1, 4);
  }

  lemma IdleCall(s: State, v: Vendor)
    requires IdlesOn(s, v)
    ensures RunsIdle(s, RunEvent(v).env.run, v) && AllUncovered(StagedHeader(s), v.outSize)
    ensures CopiedBytes(StagedHeader(s), v.outSize) == 4
  {
    SmallFits(StagedHeader(s));
    assert MemoryAfter(s, RunEvent(v).env.run) == Called(WithPoison(s), 112, v);
  }

  lemma IdleRun(s: State, v: Vendor)
    requires Sound(s) && s.phase == InputReady && IdlesOn(s, v)
    ensures Possible(s, RunEvent(v)) && IsRun(s, RunEvent(v)) && Sound(Step(s, RunEvent(v)).s)
    ensures RunEvent(v).env.run.rc == 0 && Coarse(RunEvent(v).env.run.readings)
  {
    IdleCall(s, v);
    PmwlRunIsPossible(s, RunEvent(v), v);
    StepIsSound(s, RunEvent(v));
  }

  /** The first RUN after boot, if its NPU idles so, is served. */
  lemma FirstIdleRunIsServed(s: State, v: Vendor)
    requires Inv(s, []) && s.phase == InputReady && IdlesOn(s, v)
    ensures var e := RunEvent(v);
      && Possible(s, e) && IsRun(s, e) && RunsIdle(s, e.env.run, v)
      && Possible(Step(s, e).s, GET_EVENT) && IsRequest(GET_EVENT, CMD_GET_RESULT)
      && Served(Step(Step(s, e).s, GET_EVENT))
  {
    IdleRun(s, v);
    IdleCall(s, v);
    AsksForFirst();
    FirstIsNotTheA5Run();
    ShortSkippedNpuServed(s, [], RunEvent(v), v, GET_EVENT);
  }

  /**
   A skipped NPU that the gate does not catch. Whatever memory holds at boot, the small workload is uploaded and run
   once, its NPU writes nothing, and the result of that run is served.
   */
  lemma FirstRunServesAnIdleNpu(mem: Space) returns (up: seq<Event>, v: Vendor)
    ensures Can(RUNNER, Booted(mem), up) && Log(RUNNER, Booted(mem), up) == [] && ValidVendor(v) && v.rc == 0
    ensures v.honoured
    ensures var s, e := After(RUNNER, Booted(mem), up), RunEvent(v);
      && Possible(s, e) && IsRun(s, e) && RunsIdle(s, e.env.run, v)
      && Possible(Step(s, e).s, GET_EVENT) && IsRequest(GET_EVENT, CMD_GET_RESULT)
      && Served(Step(Step(s, e).s, GET_EVENT))
  {
    var blob := SmallWorkload();
    up := UploadedOnce(mem, blob);
    EveryHistory(mem, up);
    var s := After(RUNNER, Booted(mem), up);
    v := IdleVendor(s, blob);
    FirstIdleRunIsServed(s, v);
  }
}
