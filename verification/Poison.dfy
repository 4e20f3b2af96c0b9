/** Destroying the previous run's output before every run, with a pattern that no two runs share. */
module Poison {
  import opened Bytes
  import opened BitOps
  import opened Crc32
  import opened Memory

  const POISON_WORDS: nat := 420

  lemma XorOfWords(a: word, b: word)
    ensures Xor(a, b) < U32
  {
    assert Pow2(8) == 256;
    assert Pow2(16) == 256 * Pow2(8);
    assert Pow2(24) == 256 * Pow2(16);
    assert Pow2(32) == 256 * Pow2(24);
    XorBound(a, b, 32);
  }

  function Xor32(a: word, b: word): word {
    XorOfWords(a, b);
    Xor(a, b)
  }

  /** (uint32_t)(index * 0x9E3779B9) */
  function Stride(index: nat): word { index * 0x9E37_79B9 % U32 }

  /** poison_word */
  function PoisonWord(sequence: word, index: nat): word {
    Xor32(Xor32(0xA5C3_0000, sequence), Stride(index))
  }

  function PoisonWords(sequence: word, n: nat): (ws: seq<word>)
    ensures |ws| == n && forall i :: 0 <= i < n ==> ws[i] == PoisonWord(sequence, i)
  {
    seq(n, i requires 0 <= i < n => PoisonWord(sequence, i))
  }

  function PoisonBytes(sequence: word): (b: seq<byte>)
    ensures |b| == POISON_SIZE
  {
    Words(PoisonWords(sequence, POISON_WORDS))
  }

  /** Two runs' patterns differ in every word, so no run's poison can be mistaken for what another run left. */
  lemma PoisonNeverRepeats(s: word, t: word, i: nat)
    requires s != t
    ensures PoisonWord(s, i) != PoisonWord(t, i)
  {
    var k := Stride(i);
    var a, b := Xor32(0xA5C3_0000, s), Xor32(0xA5C3_0000, t);
    if Xor32(a, k) == Xor32(b, k) {
      XorCommutes(a, k);
      XorCommutes(b, k);
      XorInjective(k, a, b);
      XorInjective(0xA5C3_0000, s, t);
    }
  }

  lemma {:induction false} XorZero(a: nat)
    ensures Xor(a, 0) == a
  {
    if a != 0 {
      XorZero(a / 2);
    }
  }

  /**
   What fixes the pattern: its first word in run 0, the number of the run as the difference between runs, and the
   multiples of 0x9E3779B9 modulo 2^32 as the differences within one.
   */
  lemma PoisonByDifferences(s: word, i: nat)
    ensures PoisonWord(0, 0) == 0xA5C3_0000
    ensures Xor(PoisonWord(0, 0), PoisonWord(s, 0)) == s
    ensures Xor(PoisonWord(s, 0), PoisonWord(s, i)) == i * 0x9E37_79B9 % U32
  {
    var c, zero, first := FirstWord(0);
    var d, x, other := FirstWord(s);
    XorZero(c);
    XorTwice(c, s);
    var e, y, k, later := AnyWord(s, i);
    XorTwice(other, k);
  }

  lemma FirstWord(s: word) returns (c: word, x: nat, w: word)
    ensures c == 0xA5C3_0000 && x == Xor(c, s) && w == x && PoisonWord(s, 0) == w
  {
    c, x, w := 0xA5C3_0000, Xor32(0xA5C3_0000, s), PoisonWord(s, 0);
    NoStride(Xor32(0xA5C3_0000, s), Stride(0));
  }

  lemma NoStride(x: word, k: word)
    requires k == 0
    ensures Xor32(x, k) == x
  {
    XorZero(x);
  }

  lemma AnyWord(s: word, i: nat) returns (c: word, x: nat, k: word, w: word)
    ensures c == 0xA5C3_0000 && k == i * 0x9E37_79B9 % U32 && x == Xor(c, s) && w == Xor(x, k) && PoisonWord(s, i) == w
  {
    c, x, k, w := 0xA5C3_0000, Xor32(0xA5C3_0000, s), Stride(i), PoisonWord(s, i);
  }

  lemma PoisonBytesDiffer(s: word, t: word, i: nat)
    requires s != t && i < POISON_WORDS
    ensures PoisonBytes(s)[4 * i..4 * i + 4] != PoisonBytes(t)[4 * i..4 * i + 4]
  {
    PoisonNeverRepeats(s, t, i);
    WordAt(PoisonWords(s, POISON_WORDS), i);
    WordAt(PoisonWords(t, POISON_WORDS), i);
    ReadLe32(PoisonWord(s, i));
    ReadLe32(PoisonWord(t, i));
  }

  lemma NextPoison(sequence: word, i: nat)
    ensures Words(PoisonWords(sequence, i + 1)) == Words(PoisonWords(sequence, i)) + Le32(PoisonWord(sequence, i))
  {
    var w := PoisonWord(sequence, i);
    assert PoisonWords(sequence, i + 1) == PoisonWords(sequence, i) + [w];
    WordsAppend(PoisonWords(sequence, i), [w]);
    assert Words([w]) == Le32(w);
  }

  /** Memory with the first `i` words of the poison written. */
  ghost function PoisonedUpTo(before: seq<byte>, sequence: word, i: nat): seq<byte>
    requires |before| == U32 && i <= POISON_WORDS
  {
    Store(before, POISON_BASE, Words(PoisonWords(sequence, i)))
  }

  lemma NextPoisoned(before: seq<byte>, sequence: word, i: nat)
    requires |before| == U32 && i < POISON_WORDS
    ensures |PoisonedUpTo(before, sequence, i)| == U32
    ensures Store(PoisonedUpTo(before, sequence, i), POISON_BASE + 4 * i, Le32(PoisonWord(sequence, i)))
         == PoisonedUpTo(before, sequence, i + 1)
  {
    NextPoison(sequence, i);
    StoreAppend(before, POISON_BASE, Words(PoisonWords(sequence, i)), Le32(PoisonWord(sequence, i)));
  }

  /** poison_output_region, which also returns the CRC of what it wrote */
  method PoisonOutputRegion(mem: array<byte>, sequence: word) returns (crc: word)
    requires mem.Length == U32
    modifies mem
    ensures mem[..] == Store(old(mem[..]), POISON_BASE, PoisonBytes(sequence))
    ensures crc == Crc(PoisonBytes(sequence))
  {
    ghost var before := mem[..];
    StoreNothing(before, POISON_BASE);
    for i := 0 to POISON_SIZE / 4
      invariant mem[..] == PoisonedUpTo(before, sequence, i)
    {
      NextPoisoned(before, sequence, i);
      Copy(mem, POISON_BASE + 4 * i, Le32(PoisonWord(sequence, i)));
    }
    LoadStored(before, POISON_BASE, PoisonBytes(sequence));
    crc := Crc32Buffer(mem[POISON_BASE..POISON_BASE + POISON_SIZE]);
  }
}
