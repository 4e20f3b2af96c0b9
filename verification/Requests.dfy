/** What request() and run() come to, told by the frames that arrive rather than by the loops that read them. */
module Requests {
  import opened Bytes
  import opened Frames
  import opened HostRecord
  import opened HostLink

  // ---- request() ----

  /** The first frame that carries the number is the one at `j`. */
  predicate FirstUnder(fs: seq<Frame>, sequence: word, j: nat) {
    j < |fs| && fs[j].sequence == sequence && forall k :: 0 <= k < j ==> fs[k].sequence != sequence
  }

  predicate NoneUnder(fs: seq<Frame>, sequence: word) {
    forall k :: 0 <= k < |fs| ==> fs[k].sequence != sequence
  }

  /** What a frame is to the request it carries the number of. */
  predicate Settles(f: Frame, command: byte, r: Reply) {
    match r
    case Answer(g) => f == g && f.command == command + 0x80 && f.command != 0xFF
    case Nacked(code, c, state) =>
      f.command == 0xFF && |f.payload| >= 2 && f.flags == code && f.payload[0] == c && f.payload[1] == state
    case MalformedNack => f.command == 0xFF && |f.payload| < 2
    case Unexpected(x) => f.command == x && x != 0xFF && x != command + 0x80
    case NoAnswer => false
  }

  lemma {:induction false} AwaitSkips(fs: seq<Frame>, sequence: word, command: byte, j: nat)
    requires command < 0x80 && FirstUnder(fs, sequence, j)
    ensures Settles(fs[j], command, Await(fs, sequence, command).0) && Await(fs, sequence, command).1 == fs[j + 1..]
    decreases |fs|
  {
    if j > 0 {
      assert fs[0].sequence != sequence && fs[1..][j - 1] == fs[j];
      assert forall k :: 0 <= k < j - 1 ==> fs[1..][k] == fs[k + 1];
      AwaitSkips(fs[1..], sequence, command, j - 1);
      assert fs[1..][j..] == fs[j + 1..];
    }
  }

  lemma {:induction false} AwaitStarves(fs: seq<Frame>, sequence: word, command: byte)
    requires command < 0x80 && NoneUnder(fs, sequence)
    ensures Await(fs, sequence, command) == (NoAnswer, [])
    decreases |fs|
  {
    if fs != [] {
      assert fs[0].sequence != sequence;
      assert forall k :: 0 <= k < |fs| - 1 ==> fs[1..][k] == fs[k + 1];
      AwaitStarves(fs[1..], sequence, command);
    }
  }

  lemma {:induction false} FirstOrNone(fs: seq<Frame>, sequence: word) returns (j: nat)
    ensures FirstUnder(fs, sequence, j) || NoneUnder(fs, sequence)
    decreases |fs|
  {
    j := 0;
    if fs != [] && fs[0].sequence != sequence {
      var i := FirstOrNone(fs[1..], sequence);
      assert forall k :: 0 < k < |fs| ==> fs[k] == fs[1..][k - 1];
      j := i + 1;
    }
  }

  lemma OneFirst(fs: seq<Frame>, sequence: word, i: nat, j: nat)
    requires FirstUnder(fs, sequence, i) && FirstUnder(fs, sequence, j)
    ensures i == j
  {
  }

  /** No frame settles a request in two ways. */
  lemma OneReply(f: Frame, command: byte, r: Reply, q: Reply)
    requires Settles(f, command, r) && Settles(f, command, q)
    ensures r == q
  {
  }

  /** The first frame under the number is at `j`, and means `r`. */
  predicate SettledBy(fs: seq<Frame>, sequence: word, command: byte, r: Reply, j: nat) {
    FirstUnder(fs, sequence, j) && Settles(fs[j], command, r)
  }

  /**
   The first frame under the request's number settles it, whatever came before: an acknowledgement of this command is
   the answer, a NACK is reported with its code and its first two payload bytes, anything else is unexpected; and
   silence is the lack of any such frame. The frames behind it stay unread.
   */
  lemma RequestIsSettled(fs: seq<Frame>, sequence: word, command: byte, r: Reply)
    requires command < 0x80
    ensures Await(fs, sequence, command).0 == r
       <==> if r.NoAnswer? then NoneUnder(fs, sequence)
            else exists j: nat :: SettledBy(fs, sequence, command, r, j)
    ensures forall j: nat :: FirstUnder(fs, sequence, j) ==> Await(fs, sequence, command).1 == fs[j + 1..]
  {
    var i := FirstOrNone(fs, sequence);
    if FirstUnder(fs, sequence, i) {
      SettledAt(fs, sequence, command, r, i);
    } else {
      AwaitStarves(fs, sequence, command);
      assert forall j: nat :: !SettledBy(fs, sequence, command, r, j);
    }
  }

  lemma SettledAt(fs: seq<Frame>, sequence: word, command: byte, r: Reply, i: nat)
    requires command < 0x80 && FirstUnder(fs, sequence, i)
    ensures !NoneUnder(fs, sequence) && !Await(fs, sequence, command).0.NoAnswer?
    ensures Await(fs, sequence, command).0 == r <==> exists j: nat :: SettledBy(fs, sequence, command, r, j)
    ensures forall j: nat :: FirstUnder(fs, sequence, j) ==> Await(fs, sequence, command).1 == fs[j + 1..]
  {
    AwaitSkips(fs, sequence, command, i);
    var q := Await(fs, sequence, command).0;
    assert SettledBy(fs, sequence, command, q, i);
    forall j: nat | FirstUnder(fs, sequence, j)
      ensures j == i
    {
      OneFirst(fs, sequence, i, j);
    }
    if exists j: nat :: SettledBy(fs, sequence, command, r, j) {
      var j: nat :| SettledBy(fs, sequence, command, r, j);
      OneReply(fs[i], command, q, r);
    }
  }

  // ---- run() ----

  /** The frame at `j` is the first that may end the RUN: before the ACK, or after it. */
  ghost predicate Reaches(fs: seq<Frame>, sequence: word, j: nat, acked: bool) {
    && j <= |fs|
    && if !acked then forall k :: 0 <= k < j ==> Straggler(fs[k], sequence)
       else exists i :: AckedAt(fs, sequence, i, j)
  }

  /** The ACK is at `i`, behind stragglers only, and the frames from there to `j` are passed over. */
  predicate AckedAt(fs: seq<Frame>, sequence: word, i: nat, j: nat) {
    && i < j <= |fs| && IsAck(fs[i], sequence) && (forall k :: 0 <= k < i ==> Straggler(fs[k], sequence))
    && (forall k :: i < k < j ==> Passed(fs[k], sequence))
  }

  /** What ends a RUN at the frame `f`. */
  predicate Ends(f: Frame, sequence: word, acked: bool, r: RunResult) {
    match r
    case Returned(rc) =>
      acked && f.command == 0x31 && ParseMeasurement(f.payload).Ok? && ParseMeasurement(f.payload).value.runRc == rc
    case BadPayload(error) => acked && f.command == 0x31 && ParseMeasurement(f.payload) == Err(error)
    case RunNacked(code, c, state) =>
      f.sequence == sequence && f.command == 0xFF && |f.payload| >= 2 && f.flags == code
      && f.payload[0] == c && f.payload[1] == state
    case BadNack => f.sequence == sequence && f.command == 0xFF && |f.payload| < 2
    case DuplicateAck => acked && f.sequence == sequence && f.command == 0xB0
    case CompleteBeforeAck => !acked && f.command == 0x31
    case FrameBeforeAck(c) =>
      !acked && f.sequence == sequence && f.command == c && c != 0xFF && c != 0xB0 && c != 0x31
    case _ => false
  }

  /** What a RUN comes to when the frames run out. */
  function Silent(acked: bool): RunResult { if acked then NoRunComplete else NoAck }

  lemma ConsiderEnds(f: Frame, sequence: word, acked: bool, r: RunResult)
    ensures Consider(f, sequence, acked) == Stop(r) <==> Ends(f, sequence, acked, r)
    ensures Consider(f, sequence, acked).Begin? <==> !acked && IsAck(f, sequence)
    ensures Consider(f, sequence, acked).Skip? <==> if acked then Passed(f, sequence) else Straggler(f, sequence)
  {
  }

  /** What a RUN that ends at `j` leaves: all frames before that but the ACK were late, the ones after it are unread. */
  function TraceAt(fs: seq<Frame>, j: nat, acked: bool, r: RunResult): RunTrace
    requires j <= |fs| && (acked ==> j > 0)
  {
    RunTrace(r, if acked then j - 1 else j, if j < |fs| then fs[j + 1..] else [])
  }

  lemma {:induction false} EndsAfterAck(fs: seq<Frame>, sequence: word, j: nat, r: RunResult)
    requires j < |fs| && (forall k :: 0 <= k < j ==> Passed(fs[k], sequence)) && Ends(fs[j], sequence, true, r)
    ensures RunOn(fs, sequence, true) == RunTrace(r, j, fs[j + 1..])
    decreases j
  {
    ConsiderEnds(fs[0], sequence, true, r);
    if j > 0 {
      assert fs[1..][j - 1] == fs[j] && forall k :: 0 <= k < j - 1 ==> fs[1..][k] == fs[k + 1];
      EndsAfterAck(fs[1..], sequence, j - 1, r);
      assert fs[1..][j..] == fs[j + 1..];
    }
  }

  lemma {:induction false} StarvesAfterAck(fs: seq<Frame>, sequence: word)
    requires forall k :: 0 <= k < |fs| ==> Passed(fs[k], sequence)
    ensures RunOn(fs, sequence, true) == RunTrace(NoRunComplete, |fs|, [])
    decreases |fs|
  {
    if fs != [] {
      ConsiderEnds(fs[0], sequence, true, NoAck);
      assert forall k :: 0 <= k < |fs| - 1 ==> fs[1..][k] == fs[k + 1];
      StarvesAfterAck(fs[1..], sequence);
    }
  }

  /** Stragglers before anything else only count. */
  lemma {:induction false} StragglersOnly(fs: seq<Frame>, sequence: word, n: nat)
    requires n <= |fs| && forall k :: 0 <= k < n ==> Straggler(fs[k], sequence)
    ensures RunOn(fs, sequence, false) == Delayed(RunOn(fs[n..], sequence, false), n)
    decreases n
  {
    if n == 0 {
      assert fs[0..] == fs;
    } else {
      ConsiderEnds(fs[0], sequence, false, NoAck);
      assert forall k :: 0 <= k < n - 1 ==> fs[1..][k] == fs[k + 1];
      StragglersOnly(fs[1..], sequence, n - 1);
      assert fs[1..][n - 1..] == fs[n..];
    }
  }

  /** The frames from the ACK on. */
  lemma FromAck(fs: seq<Frame>, sequence: word, i: nat, j: nat) returns (rest: seq<Frame>)
    requires AckedAt(fs, sequence, i, j)
    ensures rest == fs[i + 1..] && |rest| == |fs| - i - 1
    ensures forall k :: 0 <= k < j - i - 1 ==> Passed(rest[k], sequence)
    ensures forall k :: 0 <= k < |rest| ==> rest[k] == fs[i + 1 + k]
    ensures RunOn(fs, sequence, false) == Delayed(RunOn(rest, sequence, true), i)
  {
    rest := fs[i + 1..];
    StragglersOnly(fs, sequence, i);
    ConsiderEnds(fs[i], sequence, false, NoAck);
    assert fs[i..][0] == fs[i] && fs[i..][1..] == rest;
    assert forall k :: 0 <= k < j - i - 1 ==> rest[k] == fs[i + 1 + k];
  }

  lemma EndsThere(fs: seq<Frame>, sequence: word, j: nat, acked: bool, r: RunResult)
    requires j < |fs| && Reaches(fs, sequence, j, acked) && Ends(fs[j], sequence, acked, r)
    ensures (acked ==> j > 0) && RunOn(fs, sequence, false) == TraceAt(fs, j, acked, r)
  {
    if acked {
      var i :| AckedAt(fs, sequence, i, j);
      var rest := FromAck(fs, sequence, i, j);
      EndsAfterAck(rest, sequence, j - i - 1, r);
      assert rest[j - i..] == fs[j + 1..];
    } else {
      StragglersOnly(fs, sequence, j);
      ConsiderEnds(fs[j], sequence, false, r);
      assert fs[j..][0] == fs[j] && fs[j..][1..] == fs[j + 1..];
    }
  }

  lemma StarvesThere(fs: seq<Frame>, sequence: word, acked: bool)
    requires Reaches(fs, sequence, |fs|, acked)
    ensures (acked ==> |fs| > 0) && RunOn(fs, sequence, false) == TraceAt(fs, |fs|, acked, Silent(acked))
  {
    if acked {
      var i :| AckedAt(fs, sequence, i, |fs|);
      var rest := FromAck(fs, sequence, i, |fs|);
      StarvesAfterAck(rest, sequence);
    } else {
      StragglersOnly(fs, sequence, |fs|);
      assert fs[|fs|..] == [];
    }
  }

  /** Every sequence of frames has a frame that ends the RUN, or ends first. */
  lemma {:induction false} SomeEnd(fs: seq<Frame>, sequence: word, n: nat, acked: bool)
    returns (j: nat, late: bool, r: RunResult)
    requires Reaches(fs, sequence, n, acked)
    ensures Reaches(fs, sequence, j, late)
    ensures if j < |fs| then Ends(fs[j], sequence, late, r) else r == Silent(late)
    decreases |fs| - n
  {
    if n == |fs| {
      j, late, r := n, acked, Silent(acked);
    } else {
      var turn := Consider(fs[n], sequence, acked);
      ConsiderEnds(fs[n], sequence, acked, if turn.Stop? then turn.result else NoAck);
      if turn.Stop? {
        j, late, r := n, acked, turn.result;
      } else {
        ReachesOn(fs, sequence, n, acked, turn.Begin?);
        j, late, r := SomeEnd(fs, sequence, n + 1, acked || turn.Begin?);
      }
    }
  }

  lemma ReachesOn(fs: seq<Frame>, sequence: word, n: nat, acked: bool, begins: bool)
    requires n < |fs| && Reaches(fs, sequence, n, acked)
    requires if begins then !acked && IsAck(fs[n], sequence)
             else if acked then Passed(fs[n], sequence) else Straggler(fs[n], sequence)
    ensures Reaches(fs, sequence, n + 1, acked || begins)
  {
    if begins {
      assert AckedAt(fs, sequence, n, n + 1);
    } else if acked {
      var i :| AckedAt(fs, sequence, i, n);
      assert AckedAt(fs, sequence, i, n + 1);
    }
  }

  /** The RUN ends at `j`, or, at the end of the frames, in silence, and leaves `t`. */
  ghost predicate ComesTo(fs: seq<Frame>, sequence: word, j: nat, acked: bool, t: RunTrace) {
    && Reaches(fs, sequence, j, acked) && (acked ==> j > 0) && t == TraceAt(fs, j, acked, t.result)
    && if j < |fs| then Ends(fs[j], sequence, acked, t.result) else t.result == Silent(acked)
  }

  lemma ComesToIts(fs: seq<Frame>, sequence: word, j: nat, acked: bool, t: RunTrace)
    requires ComesTo(fs, sequence, j, acked, t)
    ensures RunOn(fs, sequence, false) == t
  {
    if j < |fs| {
      EndsThere(fs, sequence, j, acked, t.result);
    } else {
      StarvesThere(fs, sequence, acked);
    }
  }

  /**
   run(), outcome by outcome: it returns, is refused, or fails in a given way exactly when some frame ends it in that
   way, before the ACK or after it, with nothing but stragglers before the ACK and nothing that matters between the two;
   every frame passed over has been counted as late, and the frames behind the last one read are left.
   */
  lemma RunComesTo(fs: seq<Frame>, sequence: word, t: RunTrace)
    ensures RunOn(fs, sequence, false) == t <==> exists j: nat, acked :: ComesTo(fs, sequence, j, acked, t)
  {
    var i, late, r := SomeEnd(fs, sequence, 0, false);
    assert late ==> i > 0;
    assert ComesTo(fs, sequence, i, late, TraceAt(fs, i, late, r));
    ComesToIts(fs, sequence, i, late, TraceAt(fs, i, late, r));
    if exists j: nat, acked :: ComesTo(fs, sequence, j, acked, t) {
      var j: nat, acked :| ComesTo(fs, sequence, j, acked, t);
      ComesToIts(fs, sequence, j, acked, t);
    }
  }
}
