/** A RUN whose host still has frames of earlier exchanges to read. */
module LateFrames {
  import opened Bytes
  import opened Frames
  import opened Memory
  import opened Runner
  import opened Histories
  import opened RunHistory
  import opened HostLink
  import EndToEnd

  /** The event is a RUN request under this number, accepted or not. */
  predicate AsksToRun(e: Event, sequence: word) {
    e.heard.Request? && e.heard.command == Runner.CMD_RUN && e.heard.sequence == sequence
  }

  /** An ACK of a RUN answers a RUN request of that number. */
  predicate AcksOnlyRun(out: seq<Frame>, e: Event) {
    forall i :: 0 <= i < |out| && out[i].command == ACK_RUN ==> AsksToRun(e, out[i].sequence)
  }

  /** A handler of another command transmits no ACK of a RUN. */
  predicate NoAck(d: Did) { forall i :: 0 <= i < |d.out| ==> d.out[i].command != ACK_RUN }

  lemma LoadingIsNoAck(s: State, c: byte, sequence: word, payload: Payload, env: Env)
    requires WellKept(s) && Accepts(s.phase, c)
    requires (c == CMD_LOAD_MODEL_BEGIN || c == CMD_LOAD_MODEL_CHUNK || c == CMD_LOAD_MODEL_END)
    ensures NoAck(Dispatch(s, c, sequence, payload, env))
  {
  }

  lemma OtherIsNoAck(s: State, c: byte, sequence: word, payload: Payload, env: Env)
    requires WellKept(s) && Accepts(s.phase, c) && c != Runner.CMD_RUN
    requires c != CMD_LOAD_MODEL_BEGIN && c != CMD_LOAD_MODEL_CHUNK && c != CMD_LOAD_MODEL_END
    ensures NoAck(Dispatch(s, c, sequence, payload, env))
  {
  }

  lemma DispatchAcks(r: State, c: byte, sequence: word, payload: Payload, env: Env)
    requires WellKept(r) && Accepts(r.phase, c) && c != Runner.CMD_RUN
    ensures NoAck(Dispatch(r, c, sequence, payload, env))
  {
    if c == CMD_LOAD_MODEL_BEGIN || c == CMD_LOAD_MODEL_CHUNK || c == CMD_LOAD_MODEL_END {
      LoadingIsNoAck(r, c, sequence, payload, env);
    } else {
      OtherIsNoAck(r, c, sequence, payload, env);
    }
  }

  lemma RunAcksItself(s: State, e: Event)
    requires Possible(s, e) && IsRun(s, e)
    ensures AcksOnlyRun(Step(s, e).out, e)
  {
    var r := Received(s, e.consumed, e.resyncs);
    StepOfARun(s, e);
    RunReports(r, e.heard.sequence, e.env.run);
    TwoFrames(Step(s, e), e, Add32(r.runCounter, 1));
  }

  lemma TwoFrames(d: Did, e: Event, n: int)
    requires Reports(d, e.heard.sequence, n) && AsksToRun(e, e.heard.sequence)
    ensures AcksOnlyRun(d.out, e)
  {
  }

  lemma StepAcks(s: State, e: Event)
    requires Possible(s, e)
    ensures AcksOnlyRun(Step(s, e).out, e)
  {
    var r := Received(s, e.consumed, e.resyncs);
    match e.heard
    case Request(c, sequence, payload) =>
      if Known(c) && Accepts(s.phase, c) {
        if c == Runner.CMD_RUN {
          RunAcksItself(s, e);
        } else {
          DispatchAcks(r, c, sequence, payload, e.env);
        }
      }
    case _ =>
  }

  /** No RUN request under this number among the events. */
  predicate NumberUnused(es: seq<Event>, sequence: word) {
    forall i :: 0 <= i < |es| ==> !AsksToRun(es[i], sequence)
  }

  predicate NoAckOf(fs: seq<Frame>, sequence: word) {
    forall i :: 0 <= i < |fs| ==> !IsAck(fs[i], sequence)
  }

  lemma {:induction false} UnusedIsUnacked(s: State, es: seq<Event>, sequence: word)
    requires Can(TALKING, s, es) && NumberUnused(es, sequence)
    ensures NoAckOf(Log(TALKING, s, es), sequence)
    decreases |es|
  {
    if es != [] {
      StepAcks(s, es[0]);
      assert !AsksToRun(es[0], sequence);
      UnusedIsUnacked(Step(s, es[0]).s, es[1..], sequence);
    }
  }

  /** What the host has still to read when it sends a RUN: old frames, the RUN's own two, and whatever follows. */
  lemma OwnFramesDecide(unread: seq<Frame>, own: seq<Frame>, later: seq<Frame>, sequence: word, rc: word)
    requires NoAckOf(unread, sequence) && |own| == 2 && Completes(own, sequence, 0, 1, rc)
    ensures var r := RunOn(unread + (own + later), sequence, false).result;
      && (r.Returned? ==> r.rc == rc)
      && (r == Returned(rc) <==> forall k :: 0 <= k < |unread| ==> Straggler(unread[k], sequence))
  {
    var fs, n := unread + (own + later), |unread|;
    assert fs[n] == own[0] && fs[n + 1] == own[1] && forall k :: 0 <= k < n ==> fs[k] == unread[k];
    var r := RunOn(fs, sequence, false).result;
    if r.Returned? {
      var i, j := ReturnsCompletes(fs, sequence, r.rc);
      assert IsAck(fs[n], sequence) && !Straggler(fs[n], sequence) && !Passed(fs[n + 1], sequence);
      assert i == n && j == n + 1;
    }
    if forall k :: 0 <= k < n ==> Straggler(unread[k], sequence) {
      assert Completes(fs, sequence, n, n + 1, rc);
      CompletesReturns(fs, sequence, n, n + 1, rc);
    }
  }

  /** The frames of a run complete it at the host. */
  lemma RunCompletes(s: State, e: Event)
    requires Possible(s, e) && IsRun(s, e)
    ensures |Step(s, e).out| == 2 && Completes(Step(s, e).out, e.heard.sequence, 0, 1, e.env.run.rc)
  {
    StepOfARun(s, e);
    var r := Received(s, e.consumed, e.resyncs);
    EndToEnd.RunFramesComplete(e.heard.sequence, RunOutcome(r, e.env.run), RecordOf(r, e.env.run));
  }

  lemma OwnStepDecides(s: State, unread: seq<Frame>, e: Event, later: seq<Frame>)
    requires Possible(s, e) && IsRun(s, e) && NoAckOf(unread, e.heard.sequence)
    ensures var fs := unread + (Step(s, e).out + later);
      var r := RunOn(EndToEnd.Reads(fs), e.heard.sequence, false).result;
      && (r.Returned? ==> r.rc == e.env.run.rc)
      && (r.Returned? <==> forall k :: 0 <= k < |unread| ==> Straggler(unread[k], e.heard.sequence))
  {
    var own := Step(s, e).out;
    RunCompletes(s, e);
    EndToEnd.ScanWire(unread + (own + later));
    OwnFramesDecide(unread, own, later, e.heard.sequence, e.env.run.rc);
  }

  /**
   run() never returns another run's code. In any history from boot, whatever the host has left unread of the frames
   before its RUN, and whatever the firmware transmits after it: if the number of the RUN was not used before, what
   run() returns is that run's code or an error; and it is the code exactly when every unread frame is a mere straggler,
   that is, neither carries the RUN's number nor is a RUN_COMPLETE.
   */
  lemma RunIsNeverMistaken(mem: Space, before: seq<Event>, e: Event, after: seq<Event>, read: nat)
    requires Can(TALKING, Booted(mem), before)
    requires var s := After(TALKING, Booted(mem), before);
      Possible(s, e) && IsRun(s, e) && Can(TALKING, Step(s, e).s, after)
    requires NumberUnused(before, e.heard.sequence) && read <= |Log(TALKING, Booted(mem), before)|
    ensures var s := After(TALKING, Booted(mem), before);
      var unread := Log(TALKING, Booted(mem), before)[read..];
      var fs := unread + (Step(s, e).out + Log(TALKING, Step(s, e).s, after));
      var r := RunOn(EndToEnd.Reads(fs), e.heard.sequence, false).result;
      && (r.Returned? ==> r.rc == e.env.run.rc)
      && (r.Returned? <==> forall k :: 0 <= k < |unread| ==> Straggler(unread[k], e.heard.sequence))
  {
    var s := After(TALKING, Booted(mem), before);
    UnusedIsUnacked(Booted(mem), before, e.heard.sequence);
    OwnStepDecides(s, Log(TALKING, Booted(mem), before)[read..], e, Log(TALKING, Step(s, e).s, after));
  }
}
