/**
 A shift register that absorbs bytes, with its arithmetic left abstract.

 `S` is the register, `xor` its addition, `shift` moves a value one place towards the bits that arrive later, and
 `turn` is one step of the register. `turn` is assumed to lose nothing, and to move the bits it does not shift out:
 `turn(x) xor y == turn(x xor shift(y))` whenever `clear(y)` says that shifting `y` loses nothing. From that alone,
 absorbing several bytes one after the other is absorbing them at once, each at its own place, and no two short
 blocks leave the same register behind.
 */
module ShiftRegister {

  datatype Register<!S> = Register(turn: S -> S, xor: (S, S) -> S, shift: S -> S, clear: S -> bool, place: bv8 -> S)

  /** `n` applications of `f`. */
  function Iterate<S>(f: S -> S, n: nat, x: S): S {
    if n == 0 then x else Iterate(f, n - 1, f(x))
  }

  /** A register fed byte by byte. */
  function Fold<S>(step: (S, bv8) -> S, s: S, data: seq<bv8>): S
    decreases |data|
  {
    if data == [] then s else Fold(step, step(s, data[0]), data[1..])
  }

  lemma {:induction false} FoldAppend<S>(step: (S, bv8) -> S, s: S, a: seq<bv8>, b: seq<bv8>)
    ensures Fold(step, s, a + b) == Fold(step, Fold(step, s, a), b)
    decreases |a|
  {
    if a == [] {
      assert a + b == b;
    } else {
      assert (a + b)[0] == a[0] && (a + b)[1..] == a[1..] + b;
      FoldAppend(step, step(s, a[0]), a[1..], b);
    }
  }

  lemma {:induction false} IterateLast<S>(f: S -> S, n: nat, x: S)
    ensures Iterate(f, n + 1, x) == f(Iterate(f, n, x))
  {
    if n > 0 {
      IterateLast(f, n - 1, f(x));
    }
  }

  lemma {:induction false} IterateAdd<S>(f: S -> S, m: nat, n: nat, x: S)
    ensures Iterate(f, m + n, x) == Iterate(f, n, Iterate(f, m, x))
  {
    if m > 0 {
      IterateAdd(f, m - 1, n, f(x));
    }
  }

  // ---- what is assumed of the arithmetic ----

  ghost predicate Moves<S(!new)>(r: Register<S>) {
    forall x, y :: r.clear(y) ==> r.xor(r.turn(x), y) == r.turn(r.xor(x, r.shift(y)))
  }

  ghost predicate LosesNothing<S(!new)>(r: Register<S>) {
    forall x, y :: r.turn(x) == r.turn(y) ==> x == y
  }

  ghost predicate Group<S(!new)>(r: Register<S>) {
    && (forall x, y, z :: r.xor(r.xor(x, y), z) == r.xor(x, r.xor(y, z)))
    && (forall x, y :: r.xor(x, r.xor(x, y)) == y)
    && (forall x, y :: r.xor(x, y) == r.xor(y, x))
  }

  /** `y` can be shifted `n` times without losing a bit. */
  ghost predicate Room<S>(r: Register<S>, y: S, n: nat) {
    n == 0 || (r.clear(y) && Room(r, r.shift(y), n - 1))
  }

  /** A byte, `n` places further up. */
  function Placed<S>(r: Register<S>, n: nat, b: bv8): S {
    Iterate(r.shift, n, r.place(b))
  }

  ghost predicate RoomForWord<S>(r: Register<S>) {
    forall b :: Room(r, r.place(b), 8) && Room(r, r.place(b), 16) && Room(r, r.place(b), 24)
  }

  /** Four bytes, each at its place. */
  function Word<S>(r: Register<S>, d: seq<bv8>): S
    requires |d| == 4
  {
    r.xor(r.place(d[0]), r.xor(Placed(r, 8, d[1]), r.xor(Placed(r, 16, d[2]), Placed(r, 24, d[3]))))
  }

  ghost predicate WordsTellApart<S>(r: Register<S>) {
    forall a, b | |a| == |b| == 4 && Word(r, a) == Word(r, b) :: a == b
  }

  ghost predicate Laws<S(!new)>(r: Register<S>) {
    Moves(r) && LosesNothing(r) && Group(r) && RoomForWord(r) && WordsTellApart(r)
  }

  // ---- shifting ----

  lemma {:induction false} ShiftChain<S>(r: Register<S>, ys: seq<S>, n: nat)
    requires |ys| > 0 && Room(r, ys[|ys| - 1], n)
    requires forall i :: 0 <= i < |ys| - 1 ==> r.clear(ys[i]) && r.shift(ys[i]) == ys[i + 1]
    ensures Room(r, ys[0], n + |ys| - 1)
    ensures Iterate(r.shift, n + |ys| - 1, ys[0]) == Iterate(r.shift, n, ys[|ys| - 1])
    decreases |ys|
  {
    if |ys| > 1 {
      assert r.clear(ys[0]) && r.shift(ys[0]) == ys[1];
      ShiftChain(r, ys[1..], n);
    }
  }

  lemma {:induction false} MovesMany<S(!new)>(r: Register<S>, x: S, y: S, n: nat)
    requires Moves(r) && Room(r, y, n)
    ensures r.xor(Iterate(r.turn, n, x), y) == Iterate(r.turn, n, r.xor(x, Iterate(r.shift, n, y)))
  {
    if n > 0 {
      MovesMany(r, x, r.shift(y), n - 1);
      IterateLast(r.turn, n - 1, x);
      IterateLast(r.turn, n - 1, r.xor(x, Iterate(r.shift, n, y)));
    }
  }

  function Step<S>(r: Register<S>, s: S, b: bv8): S {
    Iterate(r.turn, 8, r.xor(s, r.place(b)))
  }

  function Update<S>(r: Register<S>, s: S, data: seq<bv8>): S {
    Fold((s: S, b: bv8) => Step(r, s, b), s, data)
  }

  lemma UpdateAppend<S>(r: Register<S>, s: S, a: seq<bv8>, b: seq<bv8>)
    ensures Update(r, s, a + b) == Update(r, Update(r, s, a), b)
  {
    FoldAppend((s: S, b: bv8) => Step(r, s, b), s, a, b);
  }

  lemma UpdateOne<S>(r: Register<S>, s: S, data: seq<bv8>)
    requires data != []
    ensures Update(r, s, data) == Update(r, Step(r, s, data[0]), data[1..])
  {
  }

  /** A byte absorbed after `n` more turns is the same as that byte placed `n` bits further up now. */
  lemma Later<S(!new)>(r: Register<S>, x: S, b: bv8, n: nat)
    requires Moves(r) && Room(r, r.place(b), n)
    ensures Step(r, Iterate(r.turn, n, x), b) == Iterate(r.turn, n + 8, r.xor(x, Placed(r, n, b)))
  {
    MovesMany(r, x, r.place(b), n);
    IterateAdd(r.turn, n, 8, r.xor(x, Placed(r, n, b)));
  }

  lemma UpdateFour<S>(r: Register<S>, s: S, d: seq<bv8>)
    requires |d| == 4
    ensures Update(r, s, d) == Step(r, Step(r, Step(r, Step(r, s, d[0]), d[1]), d[2]), d[3])
  {
    var s0 := Step(r, s, d[0]);
    var s1 := Step(r, s0, d[1]);
    var s2 := Step(r, s1, d[2]);
    UpdateOne(r, s, d);
    UpdateOne(r, s0, d[1..]);
    assert d[1..][1..] == d[2..];
    UpdateOne(r, s1, d[2..]);
    assert d[2..][1..] == d[3..];
    UpdateOne(r, s2, d[3..]);
    assert d[3..][1..] == [];
  }

  lemma RegroupFour<S(!new)>(r: Register<S>, s: S, p: S, q: S, u: S, t: S)
    requires Group(r)
    ensures r.xor(r.xor(r.xor(r.xor(s, p), q), u), t) == r.xor(s, r.xor(p, r.xor(q, r.xor(u, t))))
  {
  }

  /** Four bytes enter the register as one word. */
  lemma WordAtOnce<S(!new)>(r: Register<S>, s: S, d: seq<bv8>)
    requires |d| == 4 && Moves(r) && Group(r) && RoomForWord(r)
    ensures Update(r, s, d) == Iterate(r.turn, 32, r.xor(s, Word(r, d)))
  {
    var x0 := r.xor(s, r.place(d[0]));
    var x1 := r.xor(x0, Placed(r, 8, d[1]));
    var x2 := r.xor(x1, Placed(r, 16, d[2]));
    UpdateFour(r, s, d);
    Later(r, x0, d[1], 8);
    Later(r, x1, d[2], 16);
    Later(r, x2, d[3], 24);
    RegroupFour(r, s, r.place(d[0]), Placed(r, 8, d[1]), Placed(r, 16, d[2]), Placed(r, 24, d[3]));
  }

  // ---- no step loses information ----

  lemma {:induction false} TurnsInjective<S(!new)>(r: Register<S>, n: nat, x: S, y: S)
    requires LosesNothing(r) && Iterate(r.turn, n, x) == Iterate(r.turn, n, y)
    ensures x == y
  {
    if n > 0 {
      TurnsInjective(r, n - 1, r.turn(x), r.turn(y));
      assert r.turn(x) == r.turn(y);
    }
  }

  lemma XorInjective<S(!new)>(r: Register<S>, v: S, x: S, y: S)
    requires Group(r) && r.xor(v, x) == r.xor(v, y)
    ensures x == y
  {
    assert r.xor(v, r.xor(v, x)) == x && r.xor(v, r.xor(v, y)) == y;
  }

  /** Equal registers after the same bytes were equal before them. */
  lemma {:induction false} UpdateInjective<S(!new)>(r: Register<S>, x: S, y: S, data: seq<bv8>)
    requires LosesNothing(r) && Group(r) && Update(r, x, data) == Update(r, y, data)
    ensures x == y
    decreases |data|
  {
    if data != [] {
      UpdateOne(r, x, data);
      UpdateOne(r, y, data);
      UpdateInjective(r, Step(r, x, data[0]), Step(r, y, data[0]), data[1..]);
      var v := r.place(data[0]);
      TurnsInjective(r, 8, r.xor(x, v), r.xor(y, v));
      assert r.xor(x, v) == r.xor(v, x) && r.xor(y, v) == r.xor(v, y);
      XorInjective(r, v, x, y);
    }
  }

  lemma WordsDiffer<S(!new)>(r: Register<S>, s: S, a: seq<bv8>, b: seq<bv8>)
    requires Laws(r) && |a| == |b| == 4 && Update(r, s, a) == Update(r, s, b)
    ensures a == b
  {
    WordAtOnce(r, s, a);
    WordAtOnce(r, s, b);
    TurnsInjective(r, 32, r.xor(s, Word(r, a)), r.xor(s, Word(r, b)));
    XorInjective(r, s, Word(r, a), Word(r, b));
  }

  lemma ShortBlocksDiffer<S(!new)>(r: Register<S>, s: S, a: seq<bv8>, b: seq<bv8>)
    requires Laws(r) && |a| == |b| <= 4 && Update(r, s, a) == Update(r, s, b)
    ensures a == b
  {
    var zeros: seq<bv8> := seq(4 - |a|, _ => 0);
    UpdateAppend(r, s, a, zeros);
    UpdateAppend(r, s, b, zeros);
    WordsDiffer(r, s, a + zeros, b + zeros);
    assert a == (a + zeros)[..|a|] && b == (b + zeros)[..|b|];
  }

  /** The two strings have the same length, and differ at most inside the `n` places from `at` on. */
  ghost predicate DifferWithin<T(!new)>(a: seq<T>, b: seq<T>, at: nat, n: nat) {
    |a| == |b| && forall i :: 0 <= i < |a| && !(at <= i < at + n) ==> a[i] == b[i]
  }

  /** A burst of up to four bytes always changes the register, in a message of any length. */
  lemma BurstChangesRegister<S(!new)>(r: Register<S>, s: S, a: seq<bv8>, b: seq<bv8>, at: nat)
    requires Laws(r) && a != b && DifferWithin(a, b, at, 4)
    ensures Update(r, s, a) != Update(r, s, b)
  {
    var i := if at < |a| then at else |a|;
    var j := if at + 4 < |a| then at + 4 else |a|;
    assert a[..i] == b[..i] && a[j..] == b[j..];
    assert a == a[..i] + a[i..j] + a[j..];
    assert b == a[..i] + b[i..j] + a[j..];
    if Update(r, s, a) == Update(r, s, b) {
      UpdateAppend(r, s, a[..i] + a[i..j], a[j..]);
      UpdateAppend(r, s, a[..i] + b[i..j], a[j..]);
      UpdateInjective(r, Update(r, s, a[..i] + a[i..j]), Update(r, s, a[..i] + b[i..j]), a[j..]);
      UpdateAppend(r, s, a[..i], a[i..j]);
      UpdateAppend(r, s, a[..i], b[i..j]);
      ShortBlocksDiffer(r, Update(r, s, a[..i]), a[i..j], b[i..j]);
    }
  }

  /** A message followed by a word that is its own register plus `ones` leaves the same residue, whatever it says. */
  lemma Residue<S(!new)>(r: Register<S>, s: S, ones: S, body: seq<bv8>, trailer: seq<bv8>)
    requires Laws(r) && |trailer| == 4
    ensures Word(r, trailer) == r.xor(Update(r, s, body), ones)
       <==> Update(r, s, body + trailer) == Iterate(r.turn, 32, ones)
  {
    var x, t := Update(r, s, body), Word(r, trailer);
    UpdateAppend(r, s, body, trailer);
    WordAtOnce(r, x, trailer);
    assert r.xor(x, r.xor(x, t)) == t && r.xor(x, r.xor(x, ones)) == ones;
    if Update(r, s, body + trailer) == Iterate(r.turn, 32, ones) {
      TurnsInjective(r, 32, r.xor(x, t), ones);
    }
  }
}
