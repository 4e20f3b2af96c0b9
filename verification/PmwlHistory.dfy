/** Histories in which every RUN calls the wrapped PMWL test: nothing about the vendor's code is left to assume. */
module PmwlHistory {
  import opened Bytes
  import opened Memory
  import opened Poison
  import opened Pmwl
  import opened PmwlFirmware
  import opened Placement
  import opened PackedPlacement
  import opened PmwlRun
  import opened Runner
  import opened Histories
  import opened RunHistory
  import opened VendorRun
  import Upload

  // ---- any blob that can be placed ----

  /** What may come next: anything, except that a RUN calls the wrapped test. */
  ghost predicate PmwlEvent(s: State, e: Event) {
    ValidEnv(e.env) && (IsRun(s, e) ==> |e.env.run.readings.raw| == 36 && exists v :: CallsPmwl(s, e.env.run, v))
  }

  lemma PmwlEventIsPossible(s: State, e: Event)
    requires Sound(s) && PmwlEvent(s, e)
    ensures Possible(s, e) && Sound(Step(s, e).s)
  {
    if IsRun(s, e) {
      var v :| CallsPmwl(s, e.env.run, v);
      PmwlRunIsPossible(s, e, v);
    }
    StepIsSound(s, e);
  }

  /** Such events, one after the other. */
  ghost predicate PmwlEvents(s: State, es: seq<Event>)
    decreases |es|
  {
    es == [] || (PmwlEvent(s, es[0]) && (Possible(s, es[0]) ==> PmwlEvents(Step(s, es[0]).s, es[1..])))
  }

  /** Every such history can happen: that a RUN keeps the staged model is a fact about the wrapped test. */
  lemma {:induction false} PmwlHistoryIsPossible(s: State, es: seq<Event>)
    requires Sound(s) && PmwlEvents(s, es)
    ensures Can(RUNNER, s, es) && Sound(After(RUNNER, s, es))
    decreases |es|
  {
    if es != [] {
      PmwlEventIsPossible(s, es[0]);
      PmwlHistoryIsPossible(Step(s, es[0]).s, es[1..]);
    }
  }

  /** From boot on, models are verified and runs tracked, with no assumption about what a RUN does to staging. */
  lemma PmwlModelsAreVerified(mem: Space, es: seq<Event>)
    requires PmwlEvents(Booted(mem), es)
    ensures Can(RUNNER, Booted(mem), es)
    ensures var s := After(RUNNER, Booted(mem), es);
      Inv(s, Log(RUNNER, Booted(mem), es)) && (HasModel(s.phase) ==> Verified(s))
  {
    BootIsSound(mem);
    PmwlHistoryIsPossible(Booted(mem), es);
    EveryHistory(mem, es);
    ModelsAreVerified(mem, es);
  }

  /** The same events, none of which reloads the machine. */
  ghost predicate PmwlReruns(s: State, es: seq<Event>)
    decreases |es|
  {
    es == []
    || (PmwlEvent(s, es[0]) && !Reloads(s, es[0]) && (Possible(s, es[0]) ==> PmwlReruns(Step(s, es[0]).s, es[1..])))
  }

  /** Until something reloads it, the machine keeps the very blob that was staged, through any number of RUNs. */
  lemma {:induction false} PmwlRerunsKeepBlob(s: State, es: seq<Event>)
    requires Sound(s) && HasModel(s.phase) && PmwlReruns(s, es)
    ensures Can(RERUNNING, s, es) && HoldsBlob(After(RERUNNING, s, es), s.model.total, StagedModel(s))
    decreases |es|
  {
    if es != [] {
      PmwlEventIsPossible(s, es[0]);
      StepHolds(s, es[0], s.model.total, StagedModel(s));
      PmwlRerunsKeepBlob(Step(s, es[0]).s, es[1..]);
    }
  }

  // ---- a packed blob ----

  /** A blob that pack made and that has room. */
  ghost predicate Workload(info: Info, ifms: seq<seq<byte>>, golds: seq<seq<byte>>, given: seq<int>, blob: seq<byte>) {
    && Packs(info, ifms, golds, given, blob) && ParseHeader(blob).Ok?
    && |ParseHeader(blob).value.knobs| == KNOB_WORDS && Fits(ParseHeader(blob).value)
  }

  lemma WorkloadSize(info: Info, ifms: seq<seq<byte>>, golds: seq<seq<byte>>, given: seq<int>, blob: seq<byte>)
    requires Workload(info, ifms, golds, given, blob)
    ensures 64 <= |blob| <= STAGING_SIZE && ParseHeader(blob).value.totalLen == |blob|
  {
    PackThenParse(info, ifms, golds, given, blob);
  }

  /** A byte of staging is not among those a RUN poisons. */
  lemma PoisonMissesStaging(s: State, i: nat)
    requires i < STAGING_SIZE
    ensures WithPoison(s)[STAGING_BASE + i] == s.mem[STAGING_BASE + i]
  {
    StoredByte(s.mem, POISON_BASE, PoisonBytes(Add32(s.runCounter, 1)), STAGING_BASE + i);
  }

  /** The header window of a state that holds a blob is the blob's. */
  lemma WindowHolds(s: State, blob: seq<byte>)
    requires |blob| <= STAGING_SIZE && HoldsBlob(s, |blob|, blob)
    ensures StagedAs(blob, PmwlRun.Window(WithPoison(s)))
  {
    var w := PmwlRun.Window(WithPoison(s));
    forall i | 0 <= i < |blob| && i < |w|
      ensures w[i] == blob[i]
    {
      PoisonMissesStaging(s, i);
      assert blob[i] == StagedModel(s)[i] == s.mem[STAGING_BASE + i];
    }
  }

  /**
   In a state that holds a packed blob with room for it, the wrapped test accepts it, reads it as the host does, and
   can place it.
   */
  lemma WorkloadIsRunnable(s: State, info: Info, ifms: seq<seq<byte>>, golds: seq<seq<byte>>, given: seq<int>,
                           blob: seq<byte>)
    requires Workload(info, ifms, golds, given, blob) && |blob| < U32 && HoldsBlob(s, |blob|, blob)
    ensures var w := PmwlRun.Window(WithPoison(s));
      Accepted(w, |blob|) && ParseHeader(w) == ParseHeader(blob) && Runnable(WithPoison(s), |blob|)
  {
    WorkloadSize(info, ifms, golds, given, blob);
    WindowHolds(s, blob);
    FirmwareAcceptsPacked(info, ifms, golds, given, blob, PmwlRun.Window(WithPoison(s)));
    PackedIsSectioned(info, ifms, golds, given, blob);
  }

  /** An event that reloads nothing and whose RUN, wherever the wrapped test is defined, calls it. */
  ghost predicate RunsWorkload(s: State, e: Event) {
    && ValidEnv(e.env) && !Reloads(s, e)
    && (IsRun(s, e) ==>
          && |e.env.run.readings.raw| == 36
          && exists v :: ValidVendor(v) && (Runnable(WithPoison(s), s.model.total) ==> CallsPmwl(s, e.env.run, v)))
  }

  ghost predicate WorkloadRuns(s: State, es: seq<Event>)
    decreases |es|
  {
    es == [] || (RunsWorkload(s, es[0]) && (Possible(s, es[0]) ==> WorkloadRuns(Step(s, es[0]).s, es[1..])))
  }

  /** What every RUN meets: the packed blob, whole, with the header that was packed. */
  ghost predicate Meets(s: State, blob: seq<byte>) {
    && |blob| <= STAGING_SIZE && HoldsBlob(s, |blob|, blob) && Runnable(WithPoison(s), |blob|)
    && Accepted(PmwlRun.Window(WithPoison(s)), |blob|)
    && ParseHeader(PmwlRun.Window(WithPoison(s))) == ParseHeader(blob)
  }

  lemma {:induction false} WorkloadIsMet(s: State, es: seq<Event>, info: Info, ifms: seq<seq<byte>>,
                                         golds: seq<seq<byte>>,
                                         given: seq<int>, blob: seq<byte>)
    requires Workload(info, ifms, golds, given, blob) && |blob| < U32 && HoldsBlob(s, |blob|, blob)
    requires WorkloadRuns(s, es)
    ensures Can(RERUNNING, s, es) && Meets(After(RERUNNING, s, es), blob)
    decreases |es|
  {
    WorkloadSize(info, ifms, golds, given, blob);
    WorkloadIsRunnable(s, info, ifms, golds, given, blob);
    if es != [] {
      PmwlEventIsPossible(s, es[0]);
      StepHolds(s, es[0], |blob|, blob);
      WorkloadIsMet(Step(s, es[0]).s, es[1..], info, ifms, golds, given, blob);
    }
  }

  /**
   Packed, uploaded, run any number of times: from any state that takes a new model, the upload is acknowledged, every
   event after it that reloads nothing can happen, and whenever a RUN may come it meets the blob that pack made,
   placeable.
   */
  lemma PackUploadRun(s: State, up: seq<Event>, runs: seq<Event>, last: word, info: Info, ifms: seq<seq<byte>>,
                      golds: seq<seq<byte>>, given: seq<int>, blob: seq<byte>) returns (t: State)
    requires Workload(info, ifms, golds, given, blob) && |blob| < U32
    requires Sound(s) && Accepts(s.phase, CMD_LOAD_MODEL_BEGIN)
    requires Upload.AllDelivered(up, Upload.Numbered(Upload.PrimeCommands(blob), last))
    ensures Upload.Converses(s, up, Upload.Numbered(Upload.PrimeCommands(blob), last), t)
    ensures WorkloadRuns(t, runs) ==> Can(RERUNNING, t, runs) && Meets(After(RERUNNING, t, runs), blob)
  {
    WorkloadSize(info, ifms, golds, given, blob);
    t := Upload.UploadDelivers(s, up, blob, last);
    if WorkloadRuns(t, runs) {
      WorkloadIsMet(t, runs, info, ifms, golds, given, blob);
    }
  }

  // ---- the main loop ----

  /**
   A vendor's code that, wherever the wrapped test is defined, is that test, and that the model says nothing else
   about.
   */
  ghost predicate IsPmwl(effect: (Space, word) -> Space, v: Vendor) {
    ValidVendor(v) && forall m: Space, total: word ::
      effect(m, total) == if Runnable(m, total) then AfterTest(m, total, v) else m
  }

  lemma PmwlKeepsStaging(effect: (Space, word) -> Space, v: Vendor, m: Space, total: word)
    requires IsPmwl(effect, v) && total <= STAGING_SIZE
    ensures Agree(effect(m, total), m, STAGING_BASE, total)
  {
    if Runnable(m, total) {
      TestKeepsBlob(m, total, v);
    }
  }
}
