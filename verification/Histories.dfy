/** Runs of a state machine: the state they lead to, what they log on the way, and invariants over both. */
module Histories {

  /** A machine takes an event when it `can`, moves by `step` and adds `logs` to its history. */
  datatype Machine<!S, !E, !R> = Machine(can: (S, E) -> bool, step: (S, E) -> S, logs: (S, E) -> seq<R>)

  /** Every event can be taken when its turn comes. */
  predicate Can<S, E, R>(m: Machine<S, E, R>, s: S, es: seq<E>)
    decreases |es|
  {
    es == [] || (m.can(s, es[0]) && Can(m, m.step(s, es[0]), es[1..]))
  }

  function After<S, E, R>(m: Machine<S, E, R>, s: S, es: seq<E>): S
    decreases |es|
  {
    if es == [] then s else After(m, m.step(s, es[0]), es[1..])
  }

  function Log<S, E, R>(m: Machine<S, E, R>, s: S, es: seq<E>): seq<R>
    decreases |es|
  {
    if es == [] then [] else m.logs(s, es[0]) + Log(m, m.step(s, es[0]), es[1..])
  }

  /** A property of the state and of what has been logged so far that every step keeps. */
  ghost predicate Kept<S(!new), E(!new), R(!new)>(m: Machine<S, E, R>, inv: (S, seq<R>) -> bool) {
    forall s, e, log :: inv(s, log) && m.can(s, e) ==> inv(m.step(s, e), log + m.logs(s, e))
  }

  /** What every step keeps, every run keeps. */
  lemma {:induction false} KeptThroughout<S(!new), E(!new), R(!new)>(m: Machine<S, E, R>, inv: (S, seq<R>) -> bool,
                                            s: S,
                                                                     es: seq<E>, log: seq<R>)
    requires Kept(m, inv) && inv(s, log) && Can(m, s, es)
    ensures inv(After(m, s, es), log + Log(m, s, es))
    decreases |es|
  {
    if es == [] {
      assert log + [] == log;
    } else {
      var t, l := m.step(s, es[0]), m.logs(s, es[0]);
      KeptThroughout(m, inv, t, es[1..], log + l);
      assert log + l + Log(m, t, es[1..]) == log + (l + Log(m, t, es[1..]));
    }
  }

  /** Machines that take the same events the same way differ only in what they log. */
  lemma {:induction false} SameRun<S(!new), E(!new), R, Q>(m: Machine<S, E, R>, n: Machine<S, E, Q>, s: S, es: seq<E>)
    requires forall s, e :: m.can(s, e) == n.can(s, e) && (m.can(s, e) ==> m.step(s, e) == n.step(s, e))
    requires Can(m, s, es)
    ensures Can(n, s, es) && After(n, s, es) == After(m, s, es)
    decreases |es|
  {
    if es != [] {
      SameRun(m, n, m.step(s, es[0]), es[1..]);
    }
  }

  /** A run in two parts. */
  lemma {:induction false} InParts<S, E, R>(m: Machine<S, E, R>, s: S, a: seq<E>, b: seq<E>)
    ensures Can(m, s, a + b) <==> Can(m, s, a) && Can(m, After(m, s, a), b)
    ensures After(m, s, a + b) == After(m, After(m, s, a), b)
    ensures Log(m, s, a + b) == Log(m, s, a) + Log(m, After(m, s, a), b)
    decreases |a|
  {
    if a == [] {
      assert a + b == b;
      assert [] + Log(m, s, b) == Log(m, s, b);
    } else {
      assert (a + b)[0] == a[0] && (a + b)[1..] == a[1..] + b;
      var t := m.step(s, a[0]);
      InParts(m, t, a[1..], b);
      assert m.logs(s, a[0]) + (Log(m, t, a[1..]) + Log(m, After(m, t, a[1..]), b))
          == m.logs(s, a[0]) + Log(m, t, a[1..]) + Log(m, After(m, t, a[1..]), b);
    }
  }
}
