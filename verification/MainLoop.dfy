/** The device serving whatever arrives: every run of its main loop is a history of the state machine. */
module MainLoop {
  import opened Bytes
  import opened Frames
  import opened Memory
  import opened Runner
  import opened RunHistory
  import opened Histories
  import opened FirmwareParser
  import opened Firmware
  import PmwlRun
  import PmwlHistory

  /** An environment in which any run is possible: the vendor's test never touches the staged model. */
  ghost predicate WellBehaved(env: Env) {
    && ValidEnv(env) && |env.run.readings.raw| == 36
    && forall m: Space, total: word :: total <= STAGING_SIZE ==> Agree(env.run.effect(m, total), m, STAGING_BASE, total)
  }

  /** The wrapped PMWL test is such an environment. */
  lemma PmwlIsWellBehaved(env: Env, v: PmwlRun.Vendor)
    requires ValidEnv(env) && |env.run.readings.raw| == 36 && PmwlHistory.IsPmwl(env.run.effect, v)
    ensures WellBehaved(env)
  {
    forall m: Space, total: word | total <= STAGING_SIZE
      ensures Agree(env.run.effect(m, total), m, STAGING_BASE, total)
    {
      PmwlHistory.PmwlKeepsStaging(env.run.effect, v, m, total);
    }
  }

  lemma AnyRunIsPossible(s: State, env: Env)
    requires Sound(s) && WellBehaved(env)
    ensures WellKept(s) && CanRun(s, env.run)
  {
  }

  function HeardIn(es: seq<Event>): (hs: seq<Heard>)
    ensures |hs| == |es| && forall i :: 0 <= i < |es| ==> hs[i] == es[i].heard
  {
    seq(|es|, i requires 0 <= i < |es| => es[i].heard)
  }

  lemma WireOn(a: seq<Frame>, b: seq<Frame>)
    ensures Wire(a + b) == Wire(a) + Wire(b)
  {
    if a == [] {
      assert a + b == b;
    } else {
      assert (a + b)[1..] == a[1..] + b;
      WireOn(a[1..], b);
      Regroup(Encode(a[0]), Wire(a[1..]), Wire(b));
    }
  }

  /**
   The events so far lead from `s` to `t`, have put `sent` on the wire, and are what `all` begins with, `rx` being
   left.
   */
  ghost predicate Served(s: State, es: seq<Event>, t: State, sent: seq<byte>, all: seq<Heard>, rx: seq<byte>) {
    && Can(TALKING, s, es) && After(TALKING, s, es) == t && Sound(t)
    && Wire(Log(TALKING, s, es)) == sent && all == HeardIn(es) + HearAll(rx)
  }

  lemma ServedNone(s: State, rx: seq<byte>)
    requires Sound(s)
    ensures Served(s, [], s, [], HearAll(rx), rx)
  {
    assert HeardIn([]) + HearAll(rx) == HearAll(rx);
  }

  lemma ServedNext(s: State, es: seq<Event>, t: State, sent: seq<byte>, tx0: seq<byte>, all: seq<Heard>, rx: seq<byte>,
                   e: Event) returns (now: seq<byte>)
    requires Served(s, es, t, sent, all, rx) && Possible(t, e)
    requires ParseOne(rx) == Parsed(e.consumed, e.resyncs, e.heard) && e.consumed <= |rx|
    ensures Served(s, es + [e], Step(t, e).s, now, all, rx[e.consumed..])
    ensures tx0 + now == tx0 + sent + Wire(Step(t, e).out)
  {
    now := sent + Wire(Step(t, e).out);
    Regroup(tx0, sent, Wire(Step(t, e).out));
    StepIsSound(t, e);
    InParts(TALKING, s, es, [e]);
    assert TALKING.can(t, e) && TALKING.step(t, e) == Step(t, e).s && TALKING.logs(t, e) == Step(t, e).out;
    assert [e][1..] == [] && Step(t, e).out + [] == Step(t, e).out;
    WireOn(Log(TALKING, s, es), Step(t, e).out);
    HeardNext(all, es, e, rx);
  }

  lemma HeardNext(all: seq<Heard>, es: seq<Event>, e: Event, rx: seq<byte>)
    requires all == HeardIn(es) + HearAll(rx)
    requires ParseOne(rx) == Parsed(e.consumed, e.resyncs, e.heard)
    ensures 0 < e.consumed <= |rx| && all == HeardIn(es + [e]) + HearAll(rx[e.consumed..])
  {
    HearNext(rx);
    OneMoreHeard(es, e);
    var heard, first, rest := HeardIn(es), [e.heard], HearAll(rx[e.consumed..]);
    Regroup(heard, first, rest);
  }

  lemma OneMoreHeard(es: seq<Event>, e: Event)
    ensures HeardIn(es + [e]) == HeardIn(es) + [e.heard]
  {
  }

  /** What the device has done since it was in state `s` with `tx0` written. */
  ghost predicate Serving(d: Device, s: State, tx0: seq<byte>, all: seq<Heard>, es: seq<Event>, sent: seq<byte>)
    reads d, d.mem
  {
    d.Idle() && Served(s, es, d.View(), sent, all, d.rx) && d.tx == tx0 + sent
  }

  /** One pass of the main loop: an event, or nothing but counting when no frame will ever be complete. */
  method ServeOne(d: Device, env: Env) returns (ok: bool, ghost e: Event)
    requires d.Idle() && Sound(d.View()) && WellBehaved(env)
    modifies d, d.mem
    ensures ParseOne(old(d.rx)) == if ok then Parsed(e.consumed, e.resyncs, e.heard) else Blocked
    ensures ok ==> e.consumed <= |old(d.rx)| && d.rx == old(d.rx)[e.consumed..]
    ensures ok ==> Possible(old(d.View()), e) && d.Has(Step(old(d.View()), e), old(d.tx))
    ensures !ok ==> d.Idle() && d.tx == old(d.tx) && d.View() == old(d.View()).(counters := d.counters)
  {
    AnyRunIsPossible(d.View(), env);
    ok, e := d.Serve(env);
  }

  /** What the main loop has done when it has served `es`, and whether it then still listens. */
  ghost predicate HasServed(d: Device, s: State, tx0: seq<byte>, rx0: seq<byte>, es: seq<Event>, listening: bool)
    requires d.mem.Length == U32
    reads d, d.mem
  {
    && Can(TALKING, s, es) && d.tx == tx0 + Wire(Log(TALKING, s, es))
    && HearAll(rx0) == HeardIn(es) + (if listening then HearAll(d.rx) else [])
    && d.View() == if listening then After(TALKING, s, es) else After(TALKING, s, es).(counters := d.counters)
  }

  /**
   The main loop, until the bytes or the given environments run out: what the device heard is what the stream says, in
   order; the state it reaches is the machine's after those events; and it has written exactly the machine's replies.
   */
  method ServeAll(d: Device, envs: seq<Env>) returns (listening: bool, ghost es: seq<Event>)
    requires d.Idle() && Sound(d.View()) && forall i :: 0 <= i < |envs| ==> WellBehaved(envs[i])
    modifies d, d.mem
    ensures HasServed(d, old(d.View()), old(d.tx), old(d.rx), es, listening)
    ensures listening ==> |es| == |envs|
  {
    listening, es := true, [];
    ghost var s, tx0, all, sent := d.View(), d.tx, HearAll(d.rx), [];
    ServedNone(s, d.rx);
    for i := 0 to |envs|
      invariant |es| == i && Serving(d, s, tx0, all, es, sent)
    {
      ghost var t, rx := d.View(), d.rx;
      ghost var e;
      listening, e := ServeOne(d, envs[i]);
      if !listening {
        assert HearAll(rx) == [];
        return;
      }
      sent := ServedNext(s, es, t, sent, tx0, all, rx, e);
      es := es + [e];
    }
  }

  lemma LikeTalking(s: State, es: seq<Event>)
    requires Can(TALKING, s, es)
    ensures Can(RUNNER, s, es) && After(RUNNER, s, es) == After(TALKING, s, es)
  {
    SameRun(TALKING, RUNNER, s, es);
  }

  /** From boot: the device is always in a state of the machine whose histories RunHistory speaks about. */
  method BootAndServe(mem: array<byte>, rx: seq<byte>, envs: seq<Env>)
    returns (d: Device, listening: bool, ghost es: seq<Event>)
    requires mem.Length == U32 && forall i :: 0 <= i < |envs| ==> WellBehaved(envs[i])
    modifies mem
    ensures d.mem == mem && HasServed(d, Booted(old(mem[..])), [], rx, es, listening)
    ensures Can(RUNNER, Booted(old(mem[..])), es)
    ensures After(RUNNER, Booted(old(mem[..])), es) == After(TALKING, Booted(old(mem[..])), es)
  {
    BootIsSound(mem[..]);
    d := new Device(mem, rx);
    listening, es := ServeAll(d, envs);
    LikeTalking(Booted(old(mem[..])), es);
  }
}
