/** Reading a 48-bit counter through two 32-bit registers, without a latch, while it counts. */
module PmuCounter {
  import opened Bytes

  const K16: nat := 0x1_0000
  const K48: nat := 0x1_0000_0000_0000
  const TRIES: nat := 4

  /** The counter's registers at an instant. */
  function High(ticks: nat): nat { ticks / U32 % K16 }

  function Low(ticks: nat): nat { ticks % U32 }

  /** The NPU's cycle counter: it may have advanced before any access, by `slack` ticks at most in all. */
  class Counter {
    var ticks: nat
    var slack: nat
    var mmioReads: nat

    /** Time passes. */
    method Elapse()
      modifies this`ticks, this`slack
      ensures ticks >= old(ticks) && ticks + slack == old(ticks + slack)
    {
      var d: nat :| d <= slack;
      ticks, slack := ticks + d, slack - d;
    }

    /** pmu_reg_read of PMCCNTR_HI, masked to its 16 bits */
    method ReadHigh() returns (v: nat)
      modifies this
      ensures v == High(ticks) && ticks >= old(ticks) && ticks + slack == old(ticks + slack)
      ensures mmioReads == old(mmioReads) + 1
    {
      Elapse();
      mmioReads := mmioReads + 1;
      v := High(ticks);
    }

    /** pmu_reg_read of PMCCNTR */
    method ReadLow() returns (v: nat)
      modifies this
      ensures v == Low(ticks) && ticks >= old(ticks) && ticks + slack == old(ticks + slack)
      ensures mmioReads == old(mmioReads) + 1
    {
      Elapse();
      mmioReads := mmioReads + 1;
      v := Low(ticks);
    }

    /**
     npu_pmu_read_cycles. Against a counter that advances by less than 2^32 during the call, the read is stable after
     one retry at most, and its value is the 48-bit counter at the instant of the last low read, across every carry
     and the wrap at 2^48. A stable read is as exact when the counter advances by up to 2^48 - 2^32. Against any other
     counter the low half still is that instant's, and an unstable read is reported.
     */
    method ReadCycles() returns (value: nat, stable: bool, retries: nat, ghost instant: nat)
      modifies this
      ensures old(slack) < U32 ==> stable && retries <= 1 && value == instant % K48
      ensures stable && old(slack) <= K48 - U32 ==> value == instant % K48
      ensures value < K48 && value % U32 == Low(instant)
      ensures old(ticks) <= instant <= ticks && ticks + slack == old(ticks + slack)
      ensures if stable then retries < TRIES else retries == TRIES
      ensures mmioReads == old(mmioReads) + 3 * if stable then retries + 1 else TRIES
    {
      ghost var start, quick := ticks, slack < U32;
      var lo, hi2 := 0, 0;
      instant := ticks;
      var tries := 0;
      while tries < TRIES
        invariant tries <= TRIES && start <= instant <= ticks && ticks + slack == old(ticks + slack)
        invariant mmioReads == old(mmioReads) + 3 * tries && 0 <= hi2 < K16
        invariant tries > 0 ==> lo == Low(instant)
        invariant quick ==> tries <= 1 && (tries == 1 ==> start / U32 < ticks / U32)
        decreases TRIES - tries
      {
        var hi1 := ReadHigh();
        ghost var t1 := ticks;
        lo := ReadLow();
        instant := ticks;
        hi2 := ReadHigh();
        if quick {
          Agreement(start, t1, instant, ticks);
        }
        if ticks - t1 <= K48 - U32 {
          LongAgreement(t1, instant, ticks);
        }
        Halves(hi1, lo);
        if hi1 == hi2 {
          return (hi1 * U32 + lo) % K48, true, tries, instant;
        }
        tries := tries + 1;
      }
      Halves(hi2, lo);
      return (hi2 * U32 + lo) % K48, false, tries, instant;
    }
  }

  lemma Halves(hi: nat, lo: nat)
    requires hi < K16 && lo < U32
    ensures (hi * U32 + lo) % K48 == hi * U32 + lo && (hi * U32 + lo) % K48 % U32 == lo
  {
  }

  /** Quotients by 2^32 that agree modulo 2^16 are equal, unless a whole turn of the counter lies between them. */
  lemma SameQuotient(t1: nat, t3: nat)
    requires t1 <= t3 && t3 - t1 <= K48 - U32 && High(t1) == High(t3)
    ensures t1 / U32 == t3 / U32
  {
    var p, q := t1 / U32, t3 / U32;
    assert U32 * (q - p) < t3 - t1 + U32;
    assert q - p < K16;
    SameRemainder(p, q);
  }

  lemma SameRemainder(p: nat, q: nat)
    requires p <= q < p + K16 && p % K16 == q % K16
    ensures p == q
  {
  }

  /** A stable read is right even when the counter advances by almost a whole turn while it is made. */
  lemma LongAgreement(t1: nat, t2: nat, t3: nat)
    requires t1 <= t2 <= t3 && t3 - t1 <= K48 - U32
    ensures High(t1) == High(t3) ==> (High(t1) * U32 + Low(t2)) % K48 == t2 % K48
  {
    if High(t1) == High(t3) {
      SameQuotient(t1, t3);
      Between(t1, t2, t3);
      Joined(t2);
    }
  }

  lemma Between(t1: nat, t2: nat, t3: nat)
    requires t1 <= t2 <= t3 && t1 / U32 == t3 / U32
    ensures High(t1) == High(t2)
  {
  }

  lemma Joined(t: nat)
    ensures (High(t) * U32 + Low(t)) % K48 == t % K48
  {
  }

  /** Equal high words pin the low read down; unequal ones mean that a carry has passed, which happens only once. */
  lemma Agreement(start: nat, t1: nat, t2: nat, t3: nat)
    requires start <= t1 <= t2 <= t3 && t3 - start < U32
    ensures High(t1) == High(t3) ==> (High(t1) * U32 + Low(t2)) % K48 == t2 % K48
    ensures High(t1) != High(t3) ==> start / U32 == t1 / U32 && t1 / U32 < t3 / U32
  {
  }
}
