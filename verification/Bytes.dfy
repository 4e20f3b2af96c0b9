/** Bytes, 32-bit words and their little-endian encoding, shared by both ends of the link. */
module Bytes {

  type byte = x: int | 0 <= x < 256
  type half = x: int | 0 <= x < 0x1_0000
  type word = x: int | 0 <= x < 0x1_0000_0000

  const U32: int := 0x1_0000_0000

  datatype Option<+T> = None | Some(value: T)
  datatype Result<+T, +E> = Ok(value: T) | Err(error: E)

  // ---- C unsigned arithmetic: every result is reduced modulo 2^32 ----

  function Add32(a: word, b: word): word { (a + b) % U32 }

  function Sub32(a: word, b: word): word { (a - b) % U32 }

  function Mul32(a: word, b: word): word { (a * b) % U32 }

  // ---- little-endian encoding ----

  function Le16(h: half): (s: seq<byte>)
    ensures |s| == 2
  {
    [h % 256, h / 256]
  }

  function Le32(w: word): (s: seq<byte>)
    ensures |s| == 4
  {
    [w % 256, w / 256 % 256, w / 256 / 256 % 256, w / 256 / 256 / 256]
  }

  function Rd16(s: seq<byte>, at: nat): half
    requires at + 2 <= |s|
  {
    (s[at] as int) + 256 * (s[at + 1] as int)
  }

  function Rd32(s: seq<byte>, at: nat): word
    requires at + 4 <= |s|
  {
    (s[at] as int) + 256 * (s[at + 1] as int) + 65536 * (s[at + 2] as int) + 16777216 * (s[at + 3] as int)
  }

  lemma ReadLe32(w: word)
    ensures Rd32(Le32(w), 0) == w
  {
  }

  /** Reading a word depends only on its four bytes. */
  lemma ReadSlice(s: seq<byte>, at: nat, w: word)
    requires at + 4 <= |s| && s[at..at + 4] == Le32(w)
    ensures Rd32(s, at) == w
  {
  }

  /** A word read from four bytes encodes back to those bytes. */
  lemma EncodeRead(s: seq<byte>, at: nat)
    requires at + 4 <= |s|
    ensures Le32(Rd32(s, at)) == s[at..at + 4]
  {
    var a: int, b: int, c: int, d: int := s[at], s[at + 1], s[at + 2], s[at + 3];
    var w := Rd32(s, at);
    assert w / 256 == b + 256 * (c + 256 * d);
    assert w / 256 / 256 == c + 256 * d;
  }

  /** A sequence of words, encoded one after the other. */
  function Words(ws: seq<word>): (s: seq<byte>)
    ensures |s| == 4 * |ws|
  {
    if ws == [] then [] else Le32(ws[0]) + Words(ws[1..])
  }

  function ReadWords(s: seq<byte>, at: nat, n: nat): (ws: seq<word>)
    requires at + 4 * n <= |s|
    ensures |ws| == n
    ensures forall i :: 0 <= i < n ==> ws[i] == Rd32(s, at + 4 * i)
  {
    seq(n, i requires 0 <= i < n => Rd32(s, at + 4 * i))
  }

  lemma WordsAppend(a: seq<word>, b: seq<word>)
    ensures Words(a + b) == Words(a) + Words(b)
  {
    if a == [] {
      assert a + b == b;
    } else {
      assert (a + b)[1..] == a[1..] + b;
      WordsAppend(a[1..], b);
    }
  }

  /** The word at index i of an encoded sequence is the i-th word. */
  lemma {:induction false} WordAt(ws: seq<word>, i: nat)
    requires i < |ws|
    ensures Words(ws)[4 * i..4 * i + 4] == Le32(ws[i])
  {
    WordsAppend(ws[..i], ws[i..]);
    assert ws[..i] + ws[i..] == ws;
    assert Words(ws[i..]) == Le32(ws[i]) + Words(ws[i..][1..]);
  }

  /** Reading a word depends only on its four bytes. */
  lemma SameRead(s: seq<byte>, i: nat, t: seq<byte>, j: nat)
    requires i + 4 <= |s| && j + 4 <= |t| && s[i..i + 4] == t[j..j + 4]
    ensures Rd32(s, i) == Rd32(t, j)
  {
    var a, b := s[i..i + 4], t[j..j + 4];
    assert s[i] == a[0] && s[i + 1] == a[1] && s[i + 2] == a[2] && s[i + 3] == a[3];
    assert t[j] == b[0] && t[j + 1] == b[1] && t[j + 2] == b[2] && t[j + 3] == b[3];
  }

  lemma ReadWordAt(ws: seq<word>, k: nat)
    requires k < |ws|
    ensures Rd32(Words(ws), 4 * k) == ws[k]
  {
    WordAt(ws, k);
    ReadSlice(Words(ws), 4 * k, ws[k]);
  }

  /** Words encoded anywhere inside a byte string read back unchanged. */
  lemma {:induction false} ReadWordsBack(s: seq<byte>, at: nat, ws: seq<word>)
    requires at + 4 * |ws| <= |s| && s[at..at + 4 * |ws|] == Words(ws)
    ensures ReadWords(s, at, |ws|) == ws
  {
    forall i | 0 <= i < |ws|
      ensures ReadWords(s, at, |ws|)[i] == ws[i]
    {
      ReadWordAt(ws, i);
      SliceOfSlice(s, at, at + 4 * |ws|, 4 * i, 4 * i + 4);
      SameRead(s, at + 4 * i, Words(ws), 4 * i);
    }
  }

  lemma PrefixWords(s: seq<byte>, front: seq<byte>, at: nat, n: nat)
    requires |front| <= |s| && s[..|front|] == front && at + 4 * n <= |front|
    ensures ReadWords(s, at, n) == ReadWords(front, at, n)
  {
  }

  lemma IndexedWords(t: seq<byte>, ws: seq<word>, from: nat, n: nat)
    requires |t| == 4 * |ws| && forall k :: 0 <= k < |ws| ==> Rd32(t, 4 * k) == ws[k]
    requires from + n <= |ws|
    ensures ReadWords(t, 4 * from, n) == ws[from..from + n]
  {
  }

  /** Consecutive words of an encoded sequence. */
  lemma WordsFrom(ws: seq<word>, from: nat, n: nat)
    requires from + n <= |ws|
    ensures ReadWords(Words(ws), 4 * from, n) == ws[from..from + n]
  {
    forall k | 0 <= k < |ws|
      ensures Rd32(Words(ws), 4 * k) == ws[k]
    {
      ReadWordAt(ws, k);
    }
    IndexedWords(Words(ws), ws, from, n);
  }

  lemma SliceOfSlice<T>(s: seq<T>, a: nat, b: nat, i: nat, j: nat)
    requires a <= b <= |s| && i <= j <= b - a
    ensures s[a..b][i..j] == s[a + i..a + j]
  {
    forall k | 0 <= k < j - i
      ensures s[a..b][i..j][k] == s[a + i..a + j][k]
    {
      assert s[a..b][i..j][k] == s[a..b][i + k];
    }
  }

  lemma SumSlice<T>(a: seq<T>, b: seq<T>, i: nat, j: nat)
    requires i <= j <= |b|
    ensures (a + b)[|a| + i..|a| + j] == b[i..j]
  {
  }

  lemma Regroup<T>(a: seq<T>, b: seq<T>, c: seq<T>)
    ensures (a + b) + c == a + (b + c)
  {
  }

  // ---- the bits of a byte and of a word ----

  function NibbleBits(n: int): (r: bv8)
    requires 0 <= n < 16
    ensures r as int == n
  {
    match n
    case 0 => 0 case 1 => 1 case 2 => 2 case 3 => 3 case 4 => 4 case 5 => 5 case 6 => 6 case 7 => 7
    case 8 => 8 case 9 => 9 case 10 => 10 case 11 => 11 case 12 => 12 case 13 => 13 case 14 => 14 case _ => 15
  }

  lemma JoinNibbles(h: bv8, l: bv8)
    requires h as int < 16 && l as int < 16
    ensures ((h << 4) | l) as int == 16 * (h as int) + l as int
  {
    assert h < 16 && l < 16;
  }

  function ByteBits(b: byte): (r: bv8)
    ensures r as int == b
  {
    var h, l := NibbleBits(b / 16), NibbleBits(b % 16);
    JoinNibbles(h, l);
    (h << 4) | l
  }

  lemma JoinBytes(a: bv8, b: bv8, c: bv8, d: bv8)
    ensures ((a as bv32) | (b as bv32 << 8) | (c as bv32 << 16) | (d as bv32 << 24)) as int
         == a as int + 256 * (b as int) + 65536 * (c as int) + 16777216 * (d as int)
  {
  }

  function Value(x: bv32): (w: word) { x as int }

  /** Words and 32-bit vectors, and bytes and 8-bit vectors, are the same values. */
  lemma SameBits(x: bv32, y: bv32)
    requires Value(x) == Value(y)
    ensures x == y
  {
    assert (x as int) as bv32 == x;
  }
}
