/** The firmware's 32-bit address space, the windows the linker lays out in it, and the C library's copy and fill. */
module Memory {
  import opened Bytes

  const NOINIT_BASE: nat := 0x9002_0000
  const NOINIT_SIZE: nat := 0xF90
  const NOINIT_END: nat := NOINIT_BASE + NOINIT_SIZE
  const POISON_BASE: nat := 0x9002_0900
  const POISON_SIZE: nat := 0x690
  const VENDOR_OUT: nat := 0x9002_0CC0
  const STAGING_BASE: nat := 0x9012_0000
  const STAGING_SIZE: nat := 0x100_0000
  const EXT_DRAM_BASE: nat := 0x7010_0000
  const SRAM_BASE: nat := 0x3100_0000
  const SRAM_END: nat := 0x3140_0000

  type Space = m: seq<byte> | |m| == U32 witness seq(U32, _ => 0)

  /** Two address ranges with no byte in common. */
  predicate Apart(a: nat, n: nat, b: nat, k: nat) { a + n <= b || b + k <= a }

  function Load(m: seq<byte>, at: nat, n: nat): (r: seq<byte>)
    requires at + n <= |m|
    ensures |r| == n
  {
    m[at..at + n]
  }

  function Store(m: seq<byte>, at: nat, data: seq<byte>): (r: seq<byte>)
    requires at + |data| <= |m|
    ensures |r| == |m|
  {
    m[..at] + data + m[at + |data|..]
  }

  lemma StoredByte(m: seq<byte>, at: nat, data: seq<byte>, i: nat)
    requires at + |data| <= |m| && i < |m|
    ensures Store(m, at, data)[i] == if at <= i < at + |data| then data[i - at] else m[i]
  {
  }

  lemma LoadedByte(m: seq<byte>, at: nat, n: nat, i: nat)
    requires at + n <= |m| && i < n
    ensures Load(m, at, n)[i] == m[at + i]
  {
  }

  lemma LoadStored(m: seq<byte>, at: nat, data: seq<byte>)
    requires at + |data| <= |m|
    ensures Load(Store(m, at, data), at, |data|) == data
  {
  }

  /** A store leaves every range apart from it alone. */
  lemma LoadApart(m: seq<byte>, at: nat, data: seq<byte>, b: nat, k: nat)
    requires at + |data| <= |m| && b + k <= |m| && Apart(at, |data|, b, k)
    ensures Load(Store(m, at, data), b, k) == Load(m, b, k)
  {
  }

  lemma StoreNothing(m: seq<byte>, at: nat)
    requires at <= |m|
    ensures Store(m, at, []) == m
  {
  }

  /** Storing a block is storing its front and then what follows it. */
  lemma StoreAppend(m: seq<byte>, at: nat, a: seq<byte>, b: seq<byte>)
    requires at + |a| + |b| <= |m|
    ensures Store(Store(m, at, a), at + |a|, b) == Store(m, at, a + b)
  {
  }

  /** One byte more of a block being stored. */
  lemma StoreNext(m: seq<byte>, at: nat, data: seq<byte>, i: nat)
    requires at + |data| <= |m| && i < |data|
    ensures Store(m, at, data[..i])[at + i := data[i]] == Store(m, at, data[..i + 1])
  {
  }

  /** Two memories with the same bytes in a range. */
  predicate Agree(a: seq<byte>, b: seq<byte>, at: nat, n: nat)
    requires at + n <= |a| && at + n <= |b|
  {
    Load(a, at, n) == Load(b, at, n)
  }

  lemma AgreeByBytes(a: seq<byte>, b: seq<byte>, at: nat, n: nat)
    requires at + n <= |a| && at + n <= |b| && forall i :: at <= i < at + n ==> a[i] == b[i]
    ensures Agree(a, b, at, n)
  {
  }

  lemma AgreeInside(a: seq<byte>, b: seq<byte>, at: nat, n: nat, i: nat, k: nat)
    requires at + n <= |a| && at + n <= |b| && Agree(a, b, at, n)
    requires at <= i && i + k <= at + n
    ensures Agree(a, b, i, k)
  {
    SliceOfSlice(a, at, at + n, i - at, i - at + k);
    SliceOfSlice(b, at, at + n, i - at, i - at + k);
  }

  /** memcpy */
  method Copy(mem: array<byte>, at: nat, data: seq<byte>)
    requires at + |data| <= mem.Length
    modifies mem
    ensures mem[..] == Store(old(mem[..]), at, data)
  {
    ghost var before := mem[..];
    StoreNothing(before, at);
    for i := 0 to |data|
      invariant mem[..] == Store(before, at, data[..i])
    {
      StoreNext(before, at, data, i);
      mem[at + i] := data[i];
    }
    assert data[..|data|] == data;
  }

  /** memcpy within memory, its source taken before anything is written */
  method Move(mem: array<byte>, at: nat, from: nat, n: nat)
    requires at + n <= mem.Length && from + n <= mem.Length
    modifies mem
    ensures mem[..] == Store(old(mem[..]), at, Load(old(mem[..]), from, n))
  {
    var data := mem[from..from + n];
    assert data == Load(mem[..], from, n);
    Copy(mem, at, data);
  }

  function Filled(b: byte, n: nat): (s: seq<byte>)
    ensures |s| == n && forall i :: 0 <= i < n ==> s[i] == b
  {
    seq(n, _ => b)
  }

  /** memset */
  method Fill(mem: array<byte>, at: nat, b: byte, n: nat)
    requires at + n <= mem.Length
    modifies mem
    ensures mem[..] == Store(old(mem[..]), at, Filled(b, n))
  {
    ghost var before, all := mem[..], Filled(b, n);
    StoreNothing(before, at);
    for i := 0 to n
      invariant mem[..] == Store(before, at, all[..i])
    {
      StoreNext(before, at, all, i);
      mem[at + i] := b;
    }
    assert all[..n] == all;
  }
}
