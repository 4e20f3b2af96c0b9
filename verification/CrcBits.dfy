/**
 The CRC-32 register of section 8 of RFC 1952 over bit vectors, and the proof that it is a lawful shift register.
 */
module CrcBits {
  import opened ShiftRegister

  const POLYNOMIAL: bv32 := 0xEDB88320

  // ---- one message bit at a time, least significant bit first ----

  function BitStep(c: bv32): bv32 {
    (c >> 1) ^ (if c & 1 == 1 then POLYNOMIAL else 0)
  }

  function Xor(x: bv32, y: bv32): bv32 { x ^ y }

  function Shift(y: bv32): bv32 { y << 1 }

  predicate Clear(y: bv32) { y & 0x80000000 == 0 }

  function Place(b: bv8): bv32 { b as bv32 }

  const REGISTER: Register<bv32> := Register(BitStep, Xor, Shift, Clear, Place)

  // ---- facts about bit vectors, each on its own ----

  lemma BitStepShift(x: bv32, y: bv32)
    requires y & 0x80000000 == 0
    ensures BitStep(x) ^ y == BitStep(x ^ (y << 1))
  {
  }

  lemma BitStepMoves(x: bv32, y: bv32)
    requires Clear(y)
    ensures Xor(BitStep(x), y) == BitStep(Xor(x, Shift(y)))
  {
    BitStepShift(x, y);
  }

  lemma BitStepInjective(x: bv32, y: bv32)
    requires BitStep(x) == BitStep(y)
    ensures x == y
  {
  }

  lemma XorAssociates(x: bv32, y: bv32, z: bv32)
    ensures Xor(Xor(x, y), z) == Xor(x, Xor(y, z))
  {
  }

  lemma XorCancels(x: bv32, y: bv32)
    ensures Xor(x, Xor(x, y)) == y
  {
  }

  lemma XorCommutes(x: bv32, y: bv32)
    ensures Xor(x, y) == Xor(y, x)
  {
  }

  lemma ClearNibble(y: bv32)
    requires y & 0xF0000000 == 0
    ensures Clear(y) && Clear(y << 1) && Clear(y << 2) && Clear(y << 3)
    ensures Shift(y) == y << 1 && Shift(y << 1) == y << 2 && Shift(y << 2) == y << 3 && Shift(y << 3) == y << 4
  {
  }

  lemma ShiftNibble(y: bv32, z: bv32, n: nat)
    requires y & 0xF0000000 == 0 && z == y << 4 && Room(REGISTER, z, n)
    ensures Room(REGISTER, y, n + 4) && Iterate(Shift, n + 4, y) == Iterate(Shift, n, z)
  {
    ClearNibble(y);
    ShiftChain(REGISTER, [y, y << 1, y << 2, y << 3, z], n);
  }

  lemma PlaceUp(b: bv8)
    ensures Place(b) & 0xF0000000 == 0 && (Place(b) << 4) & 0xF0000000 == 0 && (Place(b) << 4) << 4 == Place(b) << 8
  {
  }

  lemma PlaceFurther(b: bv8)
    ensures (Place(b) << 8) & 0xF0000000 == 0 && (Place(b) << 12) & 0xF0000000 == 0
    ensures (Place(b) << 8) << 4 == Place(b) << 12 && (Place(b) << 12) << 4 == Place(b) << 16
  {
  }

  lemma PlaceUpmost(b: bv8)
    ensures (Place(b) << 16) & 0xF0000000 == 0 && (Place(b) << 20) & 0xF0000000 == 0
    ensures (Place(b) << 16) << 4 == Place(b) << 20 && (Place(b) << 20) << 4 == Place(b) << 24
  {
  }

  lemma FirstByteUp(b: bv8, n: nat)
    requires Room(REGISTER, Place(b) << 8, n)
    ensures Room(REGISTER, Place(b), n + 8) && Iterate(Shift, n + 8, Place(b)) == Iterate(Shift, n, Place(b) << 8)
  {
    PlaceUp(b);
    ShiftNibble(Place(b) << 4, Place(b) << 8, n);
    ShiftNibble(Place(b), Place(b) << 4, n + 4);
  }

  lemma SecondByteUp(b: bv8, n: nat)
    requires Room(REGISTER, Place(b) << 16, n)
    ensures Room(REGISTER, Place(b) << 8, n + 8)
    ensures Iterate(Shift, n + 8, Place(b) << 8) == Iterate(Shift, n, Place(b) << 16)
  {
    PlaceFurther(b);
    ShiftNibble(Place(b) << 12, Place(b) << 16, n);
    ShiftNibble(Place(b) << 8, Place(b) << 12, n + 4);
  }

  lemma ThirdByteUp(b: bv8, n: nat)
    requires Room(REGISTER, Place(b) << 24, n)
    ensures Room(REGISTER, Place(b) << 16, n + 8)
    ensures Iterate(Shift, n + 8, Place(b) << 16) == Iterate(Shift, n, Place(b) << 24)
  {
    PlaceUpmost(b);
    ShiftNibble(Place(b) << 20, Place(b) << 24, n);
    ShiftNibble(Place(b) << 16, Place(b) << 20, n + 4);
  }

  lemma PlaceHasRoom(b: bv8)
    ensures Room(REGISTER, Place(b), 8) && Placed(REGISTER, 8, b) == Place(b) << 8
    ensures Room(REGISTER, Place(b), 16) && Placed(REGISTER, 16, b) == Place(b) << 16
    ensures Room(REGISTER, Place(b), 24) && Placed(REGISTER, 24, b) == Place(b) << 24
  {
    FirstByteUp(b, 0);
    SecondByteUp(b, 0);
    FirstByteUp(b, 8);
    ThirdByteUp(b, 0);
    SecondByteUp(b, 8);
    FirstByteUp(b, 16);
  }

  /** Four bytes as one little-endian word. */
  function Join(p: bv8, q: bv8, r: bv8, t: bv8): bv32 {
    (p as bv32) | (q as bv32 << 8) | (r as bv32 << 16) | (t as bv32 << 24)
  }

  lemma JoinIsXor(p: bv8, q: bv8, r: bv8, t: bv8)
    ensures Join(p, q, r, t) == Xor(Place(p), Xor(Place(q) << 8, Xor(Place(r) << 16, Place(t) << 24)))
  {
  }

  lemma JoinInjective(a: seq<bv8>, b: seq<bv8>)
    requires |a| == |b| == 4 && Join(a[0], a[1], a[2], a[3]) == Join(b[0], b[1], b[2], b[3])
    ensures a == b
  {
  }

  lemma WordIsJoin(d: seq<bv8>)
    requires |d| == 4
    ensures Word(REGISTER, d) == Join(d[0], d[1], d[2], d[3])
  {
    PlaceHasRoom(d[1]);
    PlaceHasRoom(d[2]);
    PlaceHasRoom(d[3]);
    JoinIsXor(d[0], d[1], d[2], d[3]);
  }

  /** The register obeys every law asked of it. */
  lemma RegisterLaws()
    ensures Laws(REGISTER)
  {
    assert Moves(REGISTER) by { RegisterMoves(); }
    assert LosesNothing(REGISTER) by {
      forall x, y | BitStep(x) == BitStep(y) ensures x == y { BitStepInjective(x, y); }
    }
    assert Group(REGISTER) by { RegisterGroup(); }
    assert RoomForWord(REGISTER) by {
      forall b: bv8
        ensures Room(REGISTER, REGISTER.place(b), 8) && Room(REGISTER, REGISTER.place(b), 16)
        ensures Room(REGISTER, REGISTER.place(b), 24)
      {
        PlaceHasRoom(b);
      }
    }
    assert WordsTellApart(REGISTER) by {
      forall a, b | |a| == |b| == 4 && Word(REGISTER, a) == Word(REGISTER, b)
        ensures a == b
      {
        WordIsJoin(a);
        WordIsJoin(b);
        JoinInjective(a, b);
      }
    }
  }

  lemma RegisterMoves()
    ensures Moves(REGISTER)
  {
    forall x, y | Clear(y) ensures Xor(BitStep(x), y) == BitStep(Xor(x, Shift(y))) { BitStepMoves(x, y); }
  }

  lemma RegisterGroup()
    ensures Group(REGISTER)
  {
    forall x, y, z ensures Xor(Xor(x, y), z) == Xor(x, Xor(y, z)) { XorAssociates(x, y, z); }
    forall x, y ensures Xor(x, Xor(x, y)) == y { XorCancels(x, y); }
    forall x, y ensures Xor(x, y) == Xor(y, x) { XorCommutes(x, y); }
  }

  // ---- four bits at a time ----

  function FourTurns(c: bv32): bv32 { Iterate(BitStep, 4, c) }

  lemma EightTurns(c: bv32)
    ensures Iterate(BitStep, 8, c) == FourTurns(FourTurns(c))
  {
    IterateAdd(BitStep, 4, 4, c);
  }

  lemma SplitNibble(c: bv32)
    ensures (c >> 4) & 0xF0000000 == 0 && Xor(c & 0xF, (c >> 4) << 4) == c
  {
  }

  /** Four turns depend on the low four bits only; the others are moved down. */
  lemma FourTurnsSplit(c: bv32)
    ensures FourTurns(c) == Xor(c >> 4, FourTurns(c & 0xF))
  {
    SplitNibble(c);
    TurnsOfSum(c & 0xF, c >> 4, (c >> 4) << 4);
  }

  lemma TurnsOfSum(low: bv32, high: bv32, moved: bv32)
    requires high & 0xF0000000 == 0 && moved == high << 4
    ensures FourTurns(Xor(low, moved)) == Xor(high, FourTurns(low))
  {
    ShiftNibble(high, moved, 0);
    RegisterMoves();
    MovesMany(REGISTER, low, high, 4);
    XorCommutes(FourTurns(low), high);
  }
}
