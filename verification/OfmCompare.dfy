/** Comparing output tensors with their references as int8: the host's simple definition and the firmware's one pass. */
module OfmCompare {
  import opened Bytes
  import opened Memory
  import opened Pmwl

  /** A byte read as two's complement. */
  function Int8(b: byte): (r: int)
    ensures -128 <= r < 128 && (r - b) % 256 == 0
  {
    if b > 127 then b - 256 else b
  }

  function Abs(d: int): nat { if d < 0 then -d else d }

  /** Where two byte strings of one length differ, in order. */
  function Positions(a: seq<byte>, b: seq<byte>): (r: seq<nat>)
    requires |a| == |b|
    ensures |r| <= |a| && forall k :: 0 <= k < |r| ==> r[k] < |a|
    decreases |a|
  {
    if a == [] then []
    else
      var n := |a| - 1;
      Positions(a[..n], b[..n]) + if a[n] != b[n] then [n] else []
  }

  lemma {:induction false} PositionsAreDifferences(a: seq<byte>, b: seq<byte>)
    requires |a| == |b|
    ensures forall i: nat :: i in Positions(a, b) <==> i < |a| && a[i] != b[i]
    ensures forall j, k :: 0 <= j < k < |Positions(a, b)| ==> Positions(a, b)[j] < Positions(a, b)[k]
    decreases |a|
  {
    if a != [] {
      PositionsAreDifferences(a[..|a| - 1], b[..|a| - 1]);
    }
  }

  function Gap(a: seq<byte>, b: seq<byte>, i: nat): nat
    requires i < |a| == |b|
  {
    Abs(Int8(a[i]) - Int8(b[i]))
  }

  /** The largest absolute difference at the given positions, 0 when there are none. */
  function MaxAbs(a: seq<byte>, b: seq<byte>, at: seq<nat>): nat
    requires |a| == |b| && forall k :: 0 <= k < |at| ==> at[k] < |a|
    decreases |at|
  {
    if at == [] then 0
    else
      var n := |at| - 1;
      var d, rest := Gap(a, b, at[n]), MaxAbs(a, b, at[..n]);
      if d > rest then d else rest
  }

  lemma {:induction false} MaxAbsIsMax(a: seq<byte>, b: seq<byte>, at: seq<nat>)
    requires |a| == |b| && forall k :: 0 <= k < |at| ==> at[k] < |a|
    ensures forall k :: 0 <= k < |at| ==> Gap(a, b, at[k]) <= MaxAbs(a, b, at)
    ensures MaxAbs(a, b, at) != 0 ==> exists k :: 0 <= k < |at| && Gap(a, b, at[k]) == MaxAbs(a, b, at)
    decreases |at|
  {
    if at != [] {
      var n := |at| - 1;
      MaxAbsIsMax(a, b, at[..n]);
      assert forall k :: 0 <= k < n ==> at[..n][k] == at[k];
      if Gap(a, b, at[n]) <= MaxAbs(a, b, at[..n]) && MaxAbs(a, b, at) != 0 {
        var k :| 0 <= k < n && Gap(a, b, at[..n][k]) == MaxAbs(a, b, at[..n]);
        assert Gap(a, b, at[k]) == MaxAbs(a, b, at);
      }
    }
  }

  datatype Comparison = Comparison(count: nat, maxAbs: nat, first: Option<nat>)

  /** compare() */
  function Compare(a: seq<byte>, b: seq<byte>): Comparison
    requires |a| == |b|
  {
    var at := Positions(a, b);
    Comparison(|at|, MaxAbs(a, b, at), if at == [] then None else Some(at[0]))
  }

  // ---- what a comparison says of the signed values ----

  /** The bytes are these signed values modulo 256. */
  ghost predicate SignedAs(x: seq<int>, b: seq<byte>) {
    |x| == |b| && forall i :: 0 <= i < |x| ==> -128 <= x[i] <= 127 && (x[i] - b[i]) % 256 == 0
  }

  /** How many of the first `n` values differ. */
  ghost function Differing(x: seq<int>, y: seq<int>, n: nat): nat
    requires n <= |x| == |y|
  {
    if n == 0 then 0 else Differing(x, y, n - 1) + if x[n - 1] != y[n - 1] then 1 else 0
  }

  /**
   The number of values that differ, the largest distance between two values at one index, and the least index at which
   they differ.
   */
  ghost predicate Tells(c: Comparison, x: seq<int>, y: seq<int>)
    requires |x| == |y|
  {
    && c.count == Differing(x, y, |x|)
    && (forall i :: 0 <= i < |x| ==> x[i] - y[i] <= c.maxAbs && y[i] - x[i] <= c.maxAbs)
    && (x != [] ==> exists i :: 0 <= i < |x| && (x[i] - y[i] == c.maxAbs || y[i] - x[i] == c.maxAbs))
    && (x == [] ==> c.maxAbs == 0)
    && match c.first
       case None => x == y
       case Some(k) => k < |x| && x[k] != y[k] && x[..k] == y[..k]
  }

  /** There is one way to read a byte as a value between -128 and 127. */
  lemma SignedIsInt8(v: int, b: byte)
    requires -128 <= v <= 127 && (v - b) % 256 == 0
    ensures v == Int8(b)
  {
  }

  lemma SignedDiffer(x: seq<int>, a: seq<byte>, y: seq<int>, b: seq<byte>, i: nat)
    requires SignedAs(x, a) && SignedAs(y, b) && |a| == |b| && i < |a|
    ensures x[i] == y[i] <==> a[i] == b[i]
    ensures x[i] - y[i] == Int8(a[i]) - Int8(b[i]) && Gap(a, b, i) == Abs(x[i] - y[i])
  {
    SignedIsInt8(x[i], a[i]);
    SignedIsInt8(y[i], b[i]);
  }

  lemma {:induction false} CountOfPositions(x: seq<int>, a: seq<byte>, y: seq<int>, b: seq<byte>, n: nat)
    requires SignedAs(x, a) && SignedAs(y, b) && |a| == |b| && n <= |a|
    ensures |Positions(a[..n], b[..n])| == Differing(x, y, n)
    decreases n
  {
    if n > 0 {
      CountOfPositions(x, a, y, b, n - 1);
      SignedDiffer(x, a, y, b, n - 1);
      assert a[..n][..n - 1] == a[..n - 1] && b[..n][..n - 1] == b[..n - 1];
    }
  }

  lemma LargestDistance(x: seq<int>, a: seq<byte>, y: seq<int>, b: seq<byte>)
    requires SignedAs(x, a) && SignedAs(y, b) && |a| == |b|
    ensures var m := Compare(a, b).maxAbs;
      && (forall i :: 0 <= i < |x| ==> x[i] - y[i] <= m && y[i] - x[i] <= m)
      && (x != [] ==> exists i :: 0 <= i < |x| && (x[i] - y[i] == m || y[i] - x[i] == m))
      && (x == [] ==> m == 0)
  {
    var at, m := Positions(a, b), Compare(a, b).maxAbs;
    PositionsAreDifferences(a, b);
    MaxAbsIsMax(a, b, at);
    forall i | 0 <= i < |x|
      ensures x[i] - y[i] <= m && y[i] - x[i] <= m
    {
      SignedDiffer(x, a, y, b, i);
      if x[i] != y[i] {
        assert i in at;
      }
    }
    if m != 0 {
      var k :| 0 <= k < |at| && Gap(a, b, at[k]) == m;
      SignedDiffer(x, a, y, b, at[k]);
    } else if x != [] {
      assert x[0] - y[0] == m;
    }
  }

  lemma NotBeforeFirst(at: seq<nat>, i: nat)
    requires at != [] && i < at[0] && forall j, k :: 0 <= j < k < |at| ==> at[j] < at[k]
    ensures i !in at
  {
    assert forall k :: 0 <= k < |at| ==> at[0] <= at[k];
  }

  lemma LeastDifference(x: seq<int>, a: seq<byte>, y: seq<int>, b: seq<byte>)
    requires SignedAs(x, a) && SignedAs(y, b) && |a| == |b|
    ensures match Compare(a, b).first
            case None => x == y
            case Some(k) => k < |x| && x[k] != y[k] && x[..k] == y[..k]
  {
    var at := Positions(a, b);
    PositionsAreDifferences(a, b);
    if at == [] {
      forall i | 0 <= i < |x| ensures x[i] == y[i] { SignedDiffer(x, a, y, b, i); }
    } else {
      assert at[0] in at;
      SignedDiffer(x, a, y, b, at[0]);
      forall i | 0 <= i < at[0]
        ensures x[i] == y[i]
      {
        SignedDiffer(x, a, y, b, i);
        NotBeforeFirst(at, i);
      }
    }
  }

  /** For all signed values, compare() of their bytes reports how many differ, how far at most, and where first. */
  lemma CompareIsSigned(x: seq<int>, a: seq<byte>, y: seq<int>, b: seq<byte>)
    requires SignedAs(x, a) && SignedAs(y, b) && |a| == |b|
    ensures Tells(Compare(a, b), x, y)
  {
    CountOfPositions(x, a, y, b, |a|);
    assert a[..|a|] == a && b[..|b|] == b;
    LargestDistance(x, a, y, b);
    LeastDifference(x, a, y, b);
  }

  // ---- one pass ----

  lemma {:induction false} MaxAbsOfPrefix(a: seq<byte>, b: seq<byte>, s: seq<byte>, t: seq<byte>, at: seq<nat>)
    requires |a| == |b| <= |s| == |t| && s[..|a|] == a && t[..|a|] == b
    requires forall k :: 0 <= k < |at| ==> at[k] < |a|
    ensures MaxAbs(s, t, at) == MaxAbs(a, b, at)
    decreases |at|
  {
    if at != [] {
      var n := |at| - 1;
      MaxAbsOfPrefix(a, b, s, t, at[..n]);
      assert s[at[n]] == a[at[n]] && t[at[n]] == b[at[n]];
    }
  }

  /** One more pair of bytes. */
  function Next(c: Comparison, at: nat, x: byte, y: byte): Comparison {
    if x == y then c
    else
      var d := Abs(Int8(x) - Int8(y));
      Comparison(c.count + 1, if d > c.maxAbs then d else c.maxAbs, if c.count == 0 then Some(at) else c.first)
  }

  lemma PositionsNext(a: seq<byte>, b: seq<byte>, x: byte, y: byte)
    requires |a| == |b|
    ensures Positions(a + [x], b + [y]) == Positions(a, b) + if x != y then [|a|] else []
  {
    assert (a + [x])[..|a|] == a && (b + [y])[..|a|] == b;
  }

  lemma CompareNext(a: seq<byte>, b: seq<byte>, x: byte, y: byte)
    requires |a| == |b|
    ensures Compare(a + [x], b + [y]) == Next(Compare(a, b), |a|, x, y)
  {
    PositionsNext(a, b, x, y);
    var s, t, at := a + [x], b + [y], Positions(a, b);
    MaxAbsOfPrefix(a, b, s, t, at);
    if x == y {
      assert at + [] == at;
    } else {
      MaxAbsLast(s, t, at, |a|);
      GapLast(a, b, x, y);
    }
  }

  lemma MaxAbsLast(s: seq<byte>, t: seq<byte>, at: seq<nat>, p: nat)
    requires |s| == |t| && p < |s| && forall k :: 0 <= k < |at| ==> at[k] < |s|
    ensures var more := at + [p];
      && (forall k :: 0 <= k < |more| ==> more[k] < |s|)
      && MaxAbs(s, t, more) == if Gap(s, t, p) > MaxAbs(s, t, at) then Gap(s, t, p) else MaxAbs(s, t, at)
  {
    var more := at + [p];
    assert more[..|at|] == at && more[|at|] == p;
  }

  lemma GapLast(a: seq<byte>, b: seq<byte>, x: byte, y: byte)
    requires |a| == |b|
    ensures Gap(a + [x], b + [y], |a|) == Abs(Int8(x) - Int8(y))
  {
  }

  lemma {:induction false} GapsAreSmall(a: seq<byte>, b: seq<byte>, at: seq<nat>)
    requires |a| == |b| && forall k :: 0 <= k < |at| ==> at[k] < |a|
    ensures MaxAbs(a, b, at) < 256
    decreases |at|
  {
    if at != [] {
      GapsAreSmall(a, b, at[..|at| - 1]);
    }
  }

  /** What a comparison finds fits the counters it is reported in. */
  lemma ComparisonIsSmall(a: seq<byte>, b: seq<byte>)
    requires |a| == |b|
    ensures Compare(a, b).count <= |a| && Compare(a, b).maxAbs < 256
    ensures Compare(a, b).first.Some? ==> Compare(a, b).first.value < |a|
  {
    GapsAreSmall(a, b, Positions(a, b));
  }

  // ---- the firmware's pass over all outputs ----

  const NO_MISMATCH: word := 0xFFFF_FFFF

  const NOTHING: Comparison := Comparison(0, 0, None)

  /** A pass over two byte strings that starts with `c` already found and `at` bytes done. */
  function Pass(c: Comparison, at: nat, a: seq<byte>, b: seq<byte>): Comparison
    requires |a| == |b|
    decreases |a|
  {
    if a == [] then c else Pass(Next(c, at, a[0], b[0]), at + 1, a[1..], b[1..])
  }

  lemma {:induction false} PassIsCompare(a: seq<byte>, b: seq<byte>, x: seq<byte>, y: seq<byte>)
    requires |a| == |b| && |x| == |y|
    ensures Pass(Compare(a, b), |a|, x, y) == Compare(a + x, b + y)
    decreases |x|
  {
    if x == [] {
      assert a + x == a && b + y == b;
    } else {
      CompareNext(a, b, x[0], y[0]);
      PassIsCompare(a + [x[0]], b + [y[0]], x[1..], y[1..]);
      assert a + [x[0]] + x[1..] == a + x && b + [y[0]] + y[1..] == b + y;
    }
  }

  /** One pass over two pieces is a pass over the first and then over the second. */
  lemma {:induction false} PassAppend(c: Comparison, at: nat, a: seq<byte>, b: seq<byte>, x: seq<byte>, y: seq<byte>)
    requires |a| == |b| && |x| == |y|
    ensures Pass(c, at, a + x, b + y) == Pass(Pass(c, at, a, b), at + |a|, x, y)
    decreases |a|
  {
    if a == [] {
      assert a + x == x && b + y == y;
    } else {
      assert (a + x)[1..] == a[1..] + x && (b + y)[1..] == b[1..] + y;
      PassAppend(Next(c, at, a[0], b[0]), at + 1, a[1..], b[1..], x, y);
    }
  }

  predicate InMemory(m: seq<byte>, at: nat, t: Tensor) {
    at + t.arenaOff + t.len <= |m| && STAGING_BASE + t.dataOff + t.len <= |m|
  }

  predicate AllInMemory(m: seq<byte>, at: nat, outs: seq<Tensor>) {
    forall i :: 0 <= i < |outs| ==> InMemory(m, at, outs[i])
  }

  /** An output as the NPU left it in the arena at `at`. */
  function Output(m: seq<byte>, at: nat, t: Tensor): (r: seq<byte>)
    requires InMemory(m, at, t)
    ensures |r| == t.len
  {
    Load(m, at + t.arenaOff, t.len)
  }

  function Reference(m: seq<byte>, t: Tensor): (r: seq<byte>)
    requires InMemory(m, 0, t)
    ensures |r| == t.len
  {
    Load(m, STAGING_BASE + t.dataOff, t.len)
  }

  /** Every output, one after the other. */
  function Outputs(m: seq<byte>, at: nat, outs: seq<Tensor>): (r: seq<byte>)
    requires AllInMemory(m, at, outs)
    ensures |r| == TotalLength(outs)
  {
    if outs == [] then [] else Output(m, at, outs[0]) + Outputs(m, at, outs[1..])
  }

  /** Every reference, one after the other. */
  function References(m: seq<byte>, outs: seq<Tensor>): (r: seq<byte>)
    requires AllInMemory(m, 0, outs)
    ensures |r| == TotalLength(outs)
  {
    if outs == [] then [] else Reference(m, outs[0]) + References(m, outs[1..])
  }

  function TotalLength(outs: seq<Tensor>): nat {
    if outs == [] then 0 else outs[0].len + TotalLength(outs[1..])
  }

  /** Byte `k` of the `i`-th output follows the outputs before it, and is the arena's byte at that tensor's place. */
  lemma {:induction false} OutputsHold(m: seq<byte>, at: nat, outs: seq<Tensor>, i: nat, k: nat)
    requires AllInMemory(m, at, outs) && i < |outs| && k < outs[i].len
    ensures InMemory(m, at, outs[i]) && TotalLength(outs[..i]) + k < |Outputs(m, at, outs)|
    ensures Outputs(m, at, outs)[TotalLength(outs[..i]) + k] == m[at + outs[i].arenaOff + k]
    decreases |outs|
  {
    if i > 0 {
      assert outs[..i][0] == outs[0] && outs[..i][1..] == outs[1..][..i - 1];
      OutputsHold(m, at, outs[1..], i - 1, k);
    } else {
      assert outs[..0] == [];
      LoadedByte(m, at + outs[0].arenaOff, outs[0].len, k);
    }
  }

  /** The three counters of the firmware hold what has been found in `at` bytes. */
  predicate CountersHold(count: word, maxAbs: word, first: word, c: Comparison, at: nat) {
    && count == c.count <= at && maxAbs == c.maxAbs && (c.count == 0 <==> c.first.None?)
    && first == if c.first.Some? then c.first.value else NO_MISMATCH
  }

  /** What the counters say of signed values. */
  ghost predicate CountersTell(count: word, maxAbs: word, first: word, x: seq<int>, y: seq<int>)
    requires |x| == |y|
  {
    Tells(Comparison(count, maxAbs, if first == NO_MISMATCH then None else Some(first)), x, y)
  }

  lemma CountersReport(count: word, maxAbs: word, first: word, x: seq<int>, a: seq<byte>, y: seq<int>, b: seq<byte>)
    requires SignedAs(x, a) && SignedAs(y, b) && |a| == |b| < U32
    requires CountersHold(count, maxAbs, first, Compare(a, b), |a|)
    ensures CountersTell(count, maxAbs, first, x, y)
  {
    CompareIsSigned(x, a, y, b);
    ComparisonIsSmall(a, b);
  }

  /** One pair of bytes. */
  method CountPair(count: word, maxAbs: word, first: word, at: word, x: byte, y: byte, ghost c: Comparison)
    returns (count': word, maxAbs': word, first': word)
    requires CountersHold(count, maxAbs, first, c, at) && at < U32 - 1
    ensures CountersHold(count', maxAbs', first', Next(c, at, x, y), at + 1)
  {
    count', maxAbs', first' := count, maxAbs, first;
    var dd := Int8(x) - Int8(y);
    if dd != 0 {
      if count' == 0 {
        first' := at;
      }
      count' := Add32(count', 1);
      if dd < 0 {
        dd := -dd;
      }
      if dd > maxAbs' {
        maxAbs' := dd;
      }
    }
  }

  /** One output against its reference. */
  method CompareOne(o: seq<byte>, g: seq<byte>, count: word, maxAbs: word, first: word, at: word, ghost c: Comparison)
    returns (count': word, maxAbs': word, first': word)
    requires |o| == |g| && at + |o| < U32 && CountersHold(count, maxAbs, first, c, at)
    ensures CountersHold(count', maxAbs', first', Pass(c, at, o, g), at + |o|)
  {
    count', maxAbs', first' := count, maxAbs, first;
    ghost var now := c;
    for i := 0 to |o|
      invariant CountersHold(count', maxAbs', first', now, at + i)
      invariant Pass(now, at + i, o[i..], g[i..]) == Pass(c, at, o, g)
    {
      assert o[i..][1..] == o[i + 1..] && g[i..][1..] == g[i + 1..];
      count', maxAbs', first' := CountPair(count', maxAbs', first', at + i, o[i], g[i], now);
      now := Next(now, at + i, o[i], g[i]);
    }
  }

  /** The pass over all outputs, starting with `c` found in the `at` bytes before them. */
  ghost function PassAll(c: Comparison, at: nat, m: seq<byte>, arena: nat, outs: seq<Tensor>): Comparison
    requires AllInMemory(m, arena, outs) && AllInMemory(m, 0, outs)
    decreases |outs|
  {
    if outs == [] then c
    else PassAll(Pass(c, at, Output(m, arena, outs[0]), Reference(m, outs[0])), at + outs[0].len, m, arena, outs[1..])
  }

  lemma {:induction false} PassAllIsPass(c: Comparison, at: nat, m: seq<byte>, arena: nat, outs: seq<Tensor>)
    requires AllInMemory(m, arena, outs) && AllInMemory(m, 0, outs)
    ensures PassAll(c, at, m, arena, outs) == Pass(c, at, Outputs(m, arena, outs), References(m, outs))
    decreases |outs|
  {
    if outs != [] {
      var o, g := Output(m, arena, outs[0]), Reference(m, outs[0]);
      PassAllIsPass(Pass(c, at, o, g), at + outs[0].len, m, arena, outs[1..]);
      PassAppend(c, at, o, g, Outputs(m, arena, outs[1..]), References(m, outs[1..]));
    }
  }

  lemma PassAllIsCompare(m: seq<byte>, arena: nat, outs: seq<Tensor>)
    requires AllInMemory(m, arena, outs) && AllInMemory(m, 0, outs)
    ensures PassAll(NOTHING, 0, m, arena, outs) == Compare(Outputs(m, arena, outs), References(m, outs))
  {
    PassAllIsPass(NOTHING, 0, m, arena, outs);
    assert Compare([], []) == NOTHING;
    PassIsCompare([], [], Outputs(m, arena, outs), References(m, outs));
    assert [] + Outputs(m, arena, outs) == Outputs(m, arena, outs) && [] + References(m, outs) == References(m, outs);
  }

  lemma PassAllNext(c: Comparison, at: nat, m: seq<byte>, arena: nat, outs: seq<Tensor>, k: nat)
    requires AllInMemory(m, arena, outs) && AllInMemory(m, 0, outs) && k < |outs|
    ensures InMemory(m, arena, outs[k]) && InMemory(m, 0, outs[k])
    ensures TotalLength(outs[k..]) == outs[k].len + TotalLength(outs[k + 1..])
    ensures PassAll(c, at, m, arena, outs[k..])
         == PassAll(Pass(c, at, Output(m, arena, outs[k]), Reference(m, outs[k])), at + outs[k].len, m, arena,
                    outs[k + 1..])
  {
    assert outs[k..][0] == outs[k] && outs[k..][1..] == outs[k + 1..];
  }

  /** With `c` found in the first `at` bytes, the outputs from the `k`-th on lead to `goal`. */
  ghost predicate Remains(m: seq<byte>, arena: nat, outs: seq<Tensor>, k: nat, c: Comparison, at: nat, goal: Comparison)
    requires AllInMemory(m, arena, outs) && AllInMemory(m, 0, outs) && k <= |outs|
  {
    PassAll(c, at, m, arena, outs[k..]) == goal && at + TotalLength(outs[k..]) == TotalLength(outs)
  }

  lemma RemainsAtEnds(m: seq<byte>, arena: nat, outs: seq<Tensor>, c: Comparison, at: nat, goal: Comparison)
    requires AllInMemory(m, arena, outs) && AllInMemory(m, 0, outs)
    ensures Remains(m, arena, outs, 0, NOTHING, 0, PassAll(NOTHING, 0, m, arena, outs))
    ensures Remains(m, arena, outs, |outs|, c, at, goal) ==> c == goal && at == TotalLength(outs)
  {
    assert outs[0..] == outs && outs[|outs|..] == [];
  }

  lemma RemainsNext(m: seq<byte>, arena: nat, outs: seq<Tensor>, k: nat, c: Comparison, at: nat, goal: Comparison,
                    t: Tensor)
    requires AllInMemory(m, arena, outs) && AllInMemory(m, 0, outs) && k < |outs| && t == outs[k]
    requires Remains(m, arena, outs, k, c, at, goal)
    ensures InMemory(m, arena, t) && InMemory(m, 0, t) && at + t.len <= TotalLength(outs)
    ensures var c' := Pass(c, at, Load(m, arena + t.arenaOff, t.len), Load(m, STAGING_BASE + t.dataOff, t.len));
      Remains(m, arena, outs, k + 1, c', at + t.len, goal)
  {
    PassAllNext(c, at, m, arena, outs, k);
  }

  /** `n` bytes read where a pointer into memory points. */
  function Fetch(mem: array<byte>, at: nat, n: nat): (s: seq<byte>)
    requires at + n <= mem.Length
    reads mem
    ensures s == Load(mem[..], at, n)
  {
    mem[at..at + n]
  }

  /** The `k`-th output. */
  method CompareNth(mem: array<byte>, arena: nat, outs: seq<Tensor>, k: nat, count: word, maxAbs: word, first: word,
                    at: word,
                    ghost c: Comparison, ghost goal: Comparison)
    returns (count': word, maxAbs': word, first': word, at': word, ghost c': Comparison)
    requires AllInMemory(mem[..], arena, outs) && AllInMemory(mem[..], 0, outs) && k < |outs| && TotalLength(outs) < U32
    requires CountersHold(count, maxAbs, first, c, at) && Remains(mem[..], arena, outs, k, c, at, goal)
    ensures CountersHold(count', maxAbs', first', c', at') && Remains(mem[..], arena, outs, k + 1, c', at', goal)
  {
    ghost var m := mem[..];
    var t := outs[k];
    RemainsNext(m, arena, outs, k, c, at, goal, t);
    var x, y := Fetch(mem, arena + t.arenaOff, t.len), Fetch(mem, STAGING_BASE + t.dataOff, t.len);
    count', maxAbs', first' := CompareOne(x, y, count, maxAbs, first, at, c);
    c', at' := Pass(c, at, x, y), at + t.len;
  }

  method CompareLoop(mem: array<byte>, arena: nat, outs: seq<Tensor>)
    returns (count: word, maxAbs: word, first: word, ghost found: Comparison)
    requires AllInMemory(mem[..], arena, outs) && AllInMemory(mem[..], 0, outs) && TotalLength(outs) < U32
    ensures found == PassAll(NOTHING, 0, mem[..], arena, outs)
    ensures CountersHold(count, maxAbs, first, found, TotalLength(outs))
  {
    count, maxAbs, first, found := 0, 0, NO_MISMATCH, NOTHING;
    var at: word := 0;
    ghost var goal := PassAll(NOTHING, 0, mem[..], arena, outs);
    RemainsAtEnds(mem[..], arena, outs, found, at, goal);
    for k := 0 to |outs|
      invariant CountersHold(count, maxAbs, first, found, at) && Remains(mem[..], arena, outs, k, found, at, goal)
    {
      count, maxAbs, first, at, found := CompareNth(mem, arena, outs, k, count, maxAbs, first, at, found, goal);
    }
    RemainsAtEnds(mem[..], arena, outs, found, at, goal);
  }

  /**
   The firmware's pass over all outputs finds what compare() finds on the concatenated outputs and references, however
   many there are and whatever their lengths.
   */
  method CompareAll(mem: array<byte>, arena: nat, outs: seq<Tensor>) returns (count: word, maxAbs: word, first: word)
    requires AllInMemory(mem[..], arena, outs) && AllInMemory(mem[..], 0, outs) && TotalLength(outs) < U32
    ensures var c := Compare(Outputs(mem[..], arena, outs), References(mem[..], outs));
      CountersHold(count, maxAbs, first, c, TotalLength(outs))
    ensures forall x, y ::
      SignedAs(x, Outputs(mem[..], arena, outs)) && SignedAs(y, References(mem[..], outs)) ==>
        CountersTell(count, maxAbs, first, x, y)
  {
    PassAllIsCompare(mem[..], arena, outs);
    ghost var found;
    count, maxAbs, first, found := CompareLoop(mem, arena, outs);
    ghost var a, b := Outputs(mem[..], arena, outs), References(mem[..], outs);
    forall x, y | SignedAs(x, a) && SignedAs(y, b)
      ensures CountersTell(count, maxAbs, first, x, y)
    {
      CountersReport(count, maxAbs, first, x, a, y, b);
    }
  }
}
