/** From the NPU's outputs to the host: what the trailing words of a run's record say about them. */
module OfmVerdict {
  import opened Bytes
  import opened Memory
  import opened Measurement
  import opened HostRecord
  import opened RunRecord
  import opened Pmwl
  import opened Placement
  import opened PmwlRun
  import opened OfmCompare
  import opened Runner
  import opened RunHistory
  import opened VendorRun
  import opened PmwlHistory
  import HostStream

  const NO_VENDOR_RC: word := 0xFFFF_FFFF

  /** A RUN that calls the wrapped test, and reads back what that test left in the firmware's globals. */
  predicate ReadsPmwl(s: State, e: RunEnv, v: Vendor) {
    && CallsPmwl(s, e, v)
    && var m, ofm := WithPoison(s), e.readings.ofm;
       if RunsThrough(m, s.model.total, v) then
         var h := ParseHeader(PmwlRun.Window(m)).value;
         && e.readings.seam.vendorRc == v.rc
         && CountersHold(ofm.mismatchCount, ofm.maxAbsDiff, ofm.firstMismatch, Judged(m, h, v), TotalLength(h.outputs))
       else e.readings.seam.vendorRc == NO_VENDOR_RC && ofm == OfmComparison(0, 0, NO_MISMATCH)
  }

  /** The trailing words the host decodes from what a RUN answers. */
  function HostTail(d: Did): Option<Tail> {
    if |d.out| != 2 then None
    else
      var p := ParseMeasurement(d.out[1].payload);
      if p.Ok? && |p.value.trailing| >= 7 then Some(ReadTail(p.value.trailing)) else None
  }

  /** In EVENTS mode they are the ones the run read. */
  lemma TailReachesHost(s: State, e: Event)
    requires Possible(s, e) && IsRun(s, e)
    ensures HostTail(Step(s, e)) == Some(TailFields(s.config, e.env.run.readings))
  {
    StepOfARun(s, e);
    var r := Received(s, e.consumed, e.resyncs);
    var o := RunOutcome(r, e.env.run);
    RunCompleteRoundTrip(o.runSequence, o.flags, o.rc, RecordOf(r, e.env.run));
  }

  // ---- the references ----

  /** The references in the blob, one after the other. */
  function InOrder(blob: seq<byte>, outs: seq<Tensor>): seq<byte>
    requires InBlob(blob, outs)
  {
    if outs == [] then [] else Load(blob, outs[0].dataOff, outs[0].len) + InOrder(blob, outs[1..])
  }

  lemma ReferenceIsInBlob(m: seq<byte>, blob: seq<byte>, t: Tensor)
    requires STAGING_BASE + |blob| <= |m| && Load(m, STAGING_BASE, |blob|) == blob && InMemory(m, 0, t)
    requires t.dataOff + t.len <= |blob|
    ensures Reference(m, t) == Load(blob, t.dataOff, t.len)
  {
    SliceOfSlice(m, STAGING_BASE, STAGING_BASE + |blob|, t.dataOff, t.dataOff + t.len);
  }

  lemma {:induction false} ReferencesAreInBlob(m: seq<byte>, blob: seq<byte>, outs: seq<Tensor>)
    requires STAGING_BASE + |blob| <= |m| && Load(m, STAGING_BASE, |blob|) == blob && InBlob(blob, outs)
    requires AllInMemory(m, 0, outs)
    ensures References(m, outs) == InOrder(blob, outs)
  {
    if outs != [] {
      ReferenceIsInBlob(m, blob, outs[0]);
      assert forall i :: 0 <= i < |outs[1..]| ==> outs[1..][i] == outs[i + 1];
      ReferencesAreInBlob(m, blob, outs[1..]);
    }
  }

  lemma {:induction false} DescribedInOrder(blob: seq<byte>, outs: seq<Tensor>, data: seq<seq<byte>>)
    requires InBlob(blob, outs) && |data| == |outs|
    requires forall i :: 0 <= i < |outs| ==> Load(blob, outs[i].dataOff, outs[i].len) == data[i]
    ensures InOrder(blob, outs) == HostStream.Concat(data)
  {
    if outs != [] {
      DescribedInOrder(blob, outs[1..], data[1..]);
    }
  }

  lemma InSecond<T>(a: seq<T>, b: seq<T>, i: nat)
    requires i < |b|
    ensures (a + b)[|a| + i] == b[i]
  {
  }

  lemma DataInBlob(info: Info, ifms: seq<seq<byte>>, golds: seq<seq<byte>>, given: seq<int>, blob: seq<byte>, k: nat)
    returns (at: nat, part: seq<byte>)
    requires Packs(info, ifms, golds, given, blob) && k < |ifms + golds|
    ensures at == PlanOf(info, ifms, golds, given).places[k] && part == (ifms + golds)[k]
    ensures at + |part| <= |blob| && Load(blob, at, |part|) == part
  {
    at, part := PlanOf(info, ifms, golds, given).places[k], (ifms + golds)[k];
    TensorDataInBlob(info, ifms, golds, given, blob, k);
  }

  lemma GoldLength(info: Info, ifms: seq<seq<byte>>, golds: seq<seq<byte>>, given: seq<int>, blob: seq<byte>, i: nat)
    requires Packs(info, ifms, golds, given, blob) && i < |golds|
    ensures i < |info.outputs| && info.outputs[i].1 == |golds[i]|
  {
    TensorsChecked(info, ifms, golds, given, blob);
  }

  lemma GoldInBlob(info: Info, ifms: seq<seq<byte>>, golds: seq<seq<byte>>, given: seq<int>, blob: seq<byte>, i: nat,
                   k: nat)
    returns (at: nat, gold: seq<byte>)
    requires Packs(info, ifms, golds, given, blob) && i < |golds| == |info.outputs| && k == |ifms| + i
    ensures at == PlanOf(info, ifms, golds, given).places[k] && gold == golds[i]
    ensures |gold| == info.outputs[i].1 && at + |gold| <= |blob| && Load(blob, at, |gold|) == gold
  {
    var part;
    at, part := DataInBlob(info, ifms, golds, given, blob, k);
    gold := golds[i];
    InSecond(ifms, golds, i);
    GoldLength(info, ifms, golds, given, blob, i);
  }

  lemma PackedReference(info: Info, ifms: seq<seq<byte>>, golds: seq<seq<byte>>, given: seq<int>, blob: seq<byte>,
                        outs: seq<Tensor>, places: seq<nat>, i: nat)
    requires Packs(info, ifms, golds, given, blob) && places == PlanOf(info, ifms, golds, given).places
    requires |places| == |ifms| + |golds| && |golds| == |info.outputs| && i < |outs|
    requires AllDescribe(outs, info.outputs, places[|ifms|..])
    ensures i < |golds| && outs[i].dataOff + outs[i].len <= |blob|
    ensures Load(blob, outs[i].dataOff, outs[i].len) == golds[i]
  {
    var k := DescribedAt(outs, info.outputs, places, |ifms|, i);
    var at, gold := GoldInBlob(info, ifms, golds, given, blob, i, k);
  }

  lemma DescribedAt(outs: seq<Tensor>, wanted: seq<(int, int)>, places: seq<nat>, n: nat, i: nat) returns (k: nat)
    requires n + |wanted| == |places| && i < |outs| && AllDescribe(outs, wanted, places[n..])
    ensures |outs| == |wanted| && k == n + i && Describes(outs[i], wanted[i], places[k])
  {
    k := n + i;
  }

  /** The references of a packed blob are the ones that were packed, in order. */
  lemma PackedReferences(info: Info, ifms: seq<seq<byte>>, golds: seq<seq<byte>>, given: seq<int>, blob: seq<byte>)
    requires Packs(info, ifms, golds, given, blob)
    ensures ParseHeader(blob).Ok? && InBlob(blob, ParseHeader(blob).value.outputs)
    ensures InOrder(blob, ParseHeader(blob).value.outputs) == HostStream.Concat(golds)
  {
    PackThenParse(info, ifms, golds, given, blob);
    ReferencesFound(info, ifms, golds, given, blob, ParseHeader(blob).value.outputs,
                    PlanOf(info, ifms, golds, given).places);
  }

  lemma ReferencesFound(info: Info, ifms: seq<seq<byte>>, golds: seq<seq<byte>>, given: seq<int>, blob: seq<byte>,
                        outs: seq<Tensor>, places: seq<nat>)
    requires Packs(info, ifms, golds, given, blob) && places == PlanOf(info, ifms, golds, given).places
    requires |places| == |ifms| + |golds| && |golds| == |info.outputs|
    requires AllDescribe(outs, info.outputs, places[|ifms|..])
    ensures InBlob(blob, outs) && InOrder(blob, outs) == HostStream.Concat(golds)
  {
    forall i | 0 <= i < |outs|
      ensures outs[i].dataOff + outs[i].len <= |blob| && Load(blob, outs[i].dataOff, outs[i].len) == golds[i]
    {
      PackedReference(info, ifms, golds, given, blob, outs, places, i);
    }
    DescribedInOrder(blob, outs, golds);
  }

  /** The blob in staging while the outputs are judged: the NPU cannot have touched it. */
  lemma BlobWhenJudged(m: Space, h: Header, v: Vendor)
    requires Ready(m, h, v.stackTop)
    ensures Load(AfterNpu(Prepared(m, h, v.stackTop), h, v.leaves), STAGING_BASE, h.totalLen) == Blob(m, h)
  {
    var p := Prepared(m, h, v.stackTop);
    BlobUntouched(m, h, v.stackTop);
    forall i | STAGING_BASE <= i < STAGING_BASE + h.totalLen
      ensures AfterNpu(p, h, v.leaves)[i] == p[i]
    {
      NpuKeeps(p, h, v.leaves, v.stackTop, i);
    }
  }

  /** What the NPU left in memory when a placed workload had run. */
  function Left(m: Space, h: Header, v: Vendor): (n: seq<byte>)
    requires Ready(m, h, v.stackTop)
    ensures |n| == U32
  {
    AfterNpu(Prepared(m, h, v.stackTop), h, v.leaves)
  }

  lemma JudgedByPacked(m: Space, v: Vendor, info: Info, ifms: seq<seq<byte>>, golds: seq<seq<byte>>, given: seq<int>,
                       blob: seq<byte>)
    requires Packs(info, ifms, golds, given, blob) && ParseHeader(blob).Ok?
    requires Ready(m, ParseHeader(blob).value, v.stackTop)
    requires Blob(m, ParseHeader(blob).value) == blob
    ensures var h := ParseHeader(blob).value;
      && AllInMemory(Left(m, h, v), Placed(h).arena, h.outputs) && |HostStream.Concat(golds)| == TotalLength(h.outputs)
      && Judged(m, h, v) == Compare(Outputs(Left(m, h, v), Placed(h).arena, h.outputs), HostStream.Concat(golds))
  {
    var h := ParseHeader(blob).value;
    var n := Left(m, h, v);
    BlobWhenJudged(m, h, v);
    OutputsInMemory(n, h, v.stackTop);
    PackedReferences(info, ifms, golds, given, blob);
    ReferencesAreInBlob(n, blob, h.outputs);
  }

  /** A state that holds a packed blob is one whose wrapped test is ready to place it. */
  lemma WorkloadIsReady(s: State, v: Vendor, info: Info, ifms: seq<seq<byte>>, golds: seq<seq<byte>>, given: seq<int>,
                        blob: seq<byte>)
    requires Workload(info, ifms, golds, given, blob) && |blob| < U32 && HoldsBlob(s, |blob|, blob) && ValidVendor(v)
    ensures Runnable(WithPoison(s), |blob|) && ParseHeader(PmwlRun.Window(WithPoison(s))) == ParseHeader(blob)
    ensures RunsThrough(WithPoison(s), |blob|, v) ==>
      Ready(WithPoison(s), ParseHeader(blob).value, v.stackTop) && Blob(WithPoison(s), ParseHeader(blob).value) == blob
  {
    WorkloadSize(info, ifms, golds, given, blob);
    WorkloadIsRunnable(s, info, ifms, golds, given, blob);
    HeldBlob(s, blob);
    var m := WithPoison(s);
    if RunsThrough(m, |blob|, v) {
      RunningIsReady(m, |blob|, v);
    }
  }

  lemma RunningIsReady(m: Space, total: word, v: Vendor)
    requires Runnable(m, total) && ValidVendor(v) && RunsThrough(m, total, v)
    ensures Ready(m, ParseHeader(PmwlRun.Window(m)).value, v.stackTop)
  {
    AcceptedHasOutput(PmwlRun.Window(m), total);
  }

  lemma HeldBlob(s: State, blob: seq<byte>)
    requires |blob| <= STAGING_SIZE && HoldsBlob(s, |blob|, blob)
    ensures Load(WithPoison(s), STAGING_BASE, |blob|) == blob
  {
    forall i | 0 <= i < |blob|
      ensures WithPoison(s)[STAGING_BASE + i] == blob[i]
    {
      PoisonMissesStaging(s, i);
      assert blob[i] == StagedModel(s)[i];
    }
  }

  lemma OutputsFit(m: Space, total: word, v: Vendor)
    requires Runnable(m, total) && ValidVendor(v) && RunsThrough(m, total, v)
    ensures TotalLength(ParseHeader(PmwlRun.Window(m)).value.outputs) < U32
  {
    RunningIsReady(m, total, v);
    OutputsAreFew(PmwlRun.Window(m), total);
  }

  /**
   What the host reads in a run's record in EVENTS mode is the vendor's own return code, and how all outputs of the NPU,
   one after the other, compare with the references that were packed: their mismatches, the largest difference, the
   first.
   */
  lemma VerdictReachesHost(s: State, e: Event, v: Vendor, info: Info, ifms: seq<seq<byte>>, golds: seq<seq<byte>>,
                           given: seq<int>, blob: seq<byte>)
    returns (tail: Tail, outs: seq<byte>)
    requires Possible(s, e) && IsRun(s, e) && s.config.mode == INSTRUMENTATION_EVENTS
    requires Workload(info, ifms, golds, given, blob) && |blob| < U32 && HoldsBlob(s, |blob|, blob)
    requires ReadsPmwl(s, e.env.run, v) && RunsThrough(WithPoison(s), |blob|, v)
    ensures HostTail(Step(s, e)) == Some(tail) && tail.vendorRc == v.rc
    ensures var m, h := WithPoison(s), ParseHeader(blob).value;
      && Ready(m, h, v.stackTop) && AllInMemory(Left(m, h, v), Placed(h).arena, h.outputs)
      && outs == Outputs(Left(m, h, v), Placed(h).arena, h.outputs)
    ensures |outs| == |HostStream.Concat(golds)| < U32
    ensures CountersHold(tail.ofmMismatchCount, tail.ofmMaxAbsDiff, tail.ofmFirstMismatch,
                         Compare(outs, HostStream.Concat(golds)), |outs|)
  {
    TailReachesHost(s, e);
    WorkloadIsReady(s, v, info, ifms, golds, given, blob);
    OutputsFit(WithPoison(s), |blob|, v);
    JudgedByPacked(WithPoison(s), v, info, ifms, golds, given, blob);
    tail := HostTail(Step(s, e)).value;
    var h := ParseHeader(blob).value;
    outs := Outputs(Left(WithPoison(s), h, v), Placed(h).arena, h.outputs);
  }

  /**
   In numbers: read as int8, the outputs differ from the packed references at as many indices as the host decodes, by at
   most the distance it decodes, which two values have, and first at the index it decodes.
   */
  lemma SignedVerdictReachesHost(s: State, e: Event, v: Vendor, info: Info, ifms: seq<seq<byte>>, golds: seq<seq<byte>>,
                                 given: seq<int>, blob: seq<byte>, x: seq<int>, y: seq<int>)
    returns (tail: Tail, outs: seq<byte>)
    requires Possible(s, e) && IsRun(s, e) && s.config.mode == INSTRUMENTATION_EVENTS
    requires Workload(info, ifms, golds, given, blob) && |blob| < U32 && HoldsBlob(s, |blob|, blob)
    requires ReadsPmwl(s, e.env.run, v) && RunsThrough(WithPoison(s), |blob|, v)
    ensures HostTail(Step(s, e)) == Some(tail)
    ensures var m, h := WithPoison(s), ParseHeader(blob).value;
      && Ready(m, h, v.stackTop) && AllInMemory(Left(m, h, v), Placed(h).arena, h.outputs)
      && outs == Outputs(Left(m, h, v), Placed(h).arena, h.outputs)
    ensures SignedAs(x, outs) && SignedAs(y, HostStream.Concat(golds)) ==>
      |x| == |y| && CountersTell(tail.ofmMismatchCount, tail.ofmMaxAbsDiff, tail.ofmFirstMismatch, x, y)
  {
    tail, outs := VerdictReachesHost(s, e, v, info, ifms, golds, given, blob);
    var b := HostStream.Concat(golds);
    if SignedAs(x, outs) && SignedAs(y, b) {
      CountersReport(tail.ofmMismatchCount, tail.ofmMaxAbsDiff, tail.ofmFirstMismatch, x, outs, y, b);
    }
  }
}
