/** The elapsed-cycle timer: a 24-bit SysTick down-counter reloaded from `SysTickMaxCnt`,
    plus a 64-bit software counter of its wrap-arounds, combined into one tick count. */
module ElapsedTimer {
  import opened ResultCodes

  /** SYSTICK_MAX_CNT: the reload value of the down-counter. */
  const SysTickMaxCnt: int := 0xFF_FFFF
  /** One full period of the down-counter, SYSTICK_MAX_CNT + 1 = 2^24. */
  const Period: int := 0x100_0000
  /** RESET_VAL: the overflow counter after initialisation. */
  const ResetVal: int := 0
  const U64Modulus: int := 0x1_0000_0000_0000_0000
  /** Below this many overflows the tick formula does not wrap (2^64 / 2^24 = 2^40). */
  const OverflowLimit: int := 0x100_0000_0000

  newtype u64 = x: int | 0 <= x < 0x1_0000_0000_0000_0000
  newtype u32 = x: int | 0 <= x < 0x1_0000_0000

  /** The formula of `elapsed_timer_get_tick`, in unsigned 64-bit arithmetic:
      (SYSTICK_MAX_CNT - v) + ov * (SYSTICK_MAX_CNT + 1), every operation modulo 2^64. */
  function Tick(ov: u64, v: u32): (t: u64)
    ensures t as int == ((SysTickMaxCnt - v as int) + ov as int * Period) % U64Modulus
  {
    var d, m := SysTickMaxCnt - v as int, ov as int * Period;
    WrapAdd(d, m);
    ((d % U64Modulus + m % U64Modulus) % U64Modulus) as u64
  }

  /** Reducing modulo 2^64 after each addend gives the same sum as reducing once. */
  lemma WrapAdd(a: int, b: int)
    ensures (a % U64Modulus + b % U64Modulus) % U64Modulus == (a + b) % U64Modulus
  {
    var qa, qb := a / U64Modulus, b / U64Modulus;
    assert a == qa * U64Modulus + a % U64Modulus;
    assert b == qb * U64Modulus + b % U64Modulus;
    assert a + b == (qa + qb) * U64Modulus + (a % U64Modulus + b % U64Modulus);
  }

  /** The exact (mathematical) value that the tick formula means. */
  function ExactTick(ov: int, v: int): int {
    (SysTickMaxCnt - v) + ov * Period
  }

  /** For a counter value the hardware can hold, the formula never wraps exactly when
      fewer than 2^40 overflows have been counted. */
  lemma NoWrapIff(ov: u64, v: u32)
    requires v as int <= SysTickMaxCnt
    ensures ExactTick(ov as int, v as int) < U64Modulus <==> ov as int < OverflowLimit
  {
    if ov as int >= OverflowLimit {
      assert ov as int * Period >= OverflowLimit * Period;
    } else {
      assert ov as int * Period <= (OverflowLimit - 1) * Period;
    }
  }

  /** Without wrap-around the stored tick is the exact value. */
  lemma TickIsExact(ov: u64, v: u32)
    requires v as int <= SysTickMaxCnt && ov as int < OverflowLimit
    ensures Tick(ov, v) as int == ExactTick(ov as int, v as int)
  {
    NoWrapIff(ov, v);
  }

  /** The tick lies in the period selected by the overflow counter. */
  lemma TickInPeriod(ov: u64, v: u32)
    requires v as int <= SysTickMaxCnt && ov as int < OverflowLimit
    ensures ov as int * Period <= Tick(ov, v) as int <= ov as int * Period + SysTickMaxCnt
  {
    TickIsExact(ov, v);
  }

  /** Within one period the tick strictly increases as the counter counts down, for every
      overflow count: the wrapped product (ov mod 2^40) * 2^24 leaves room for the counter part. */
  lemma TickIncreasesAsCounterFalls(ov: u64, v1: u32, v2: u32)
    requires v2 < v1 && v1 as int <= SysTickMaxCnt
    ensures Tick(ov, v1) < Tick(ov, v2)
  {
    TickReduced(ov, v1);
    TickReduced(ov, v2);
  }

  /** The tick is the counter part plus the overflow count modulo 2^40 times the period. */
  lemma TickReduced(ov: u64, v: u32)
    requires v as int <= SysTickMaxCnt
    ensures Tick(ov, v) as int == (SysTickMaxCnt - v as int) + (ov as int % OverflowLimit) * Period
  {
    var q, m := ov as int / OverflowLimit, ov as int % OverflowLimit;
    assert ov as int * Period == q * U64Modulus + m * Period;
    assert m * Period <= (OverflowLimit - 1) * Period;
    var e := (SysTickMaxCnt - v as int) + m * Period;
    assert 0 <= e < U64Modulus;
    assert (SysTickMaxCnt - v as int) + ov as int * Period == q * U64Modulus + e;
  }

  /** One more counted overflow adds exactly one period at the same counter value. */
  lemma OverflowAddsPeriod(ov: u64, v: u32)
    requires v as int <= SysTickMaxCnt && ov as int + 1 < OverflowLimit
    ensures Tick(ov + 1, v) as int == Tick(ov, v) as int + Period
  {
    TickIsExact(ov, v);
    TickIsExact(ov + 1, v);
  }

  /** Across a wrap, from (ov, 0) to (ov + 1, SYSTICK_MAX_CNT), the tick rises by exactly one. */
  lemma TickContinuousAcrossWrap(ov: u64)
    requires ov as int + 1 < OverflowLimit
    ensures Tick(ov + 1, SysTickMaxCnt as u32) as int == Tick(ov, 0) as int + 1
  {
    TickIsExact(ov, 0);
    TickIsExact(ov + 1, SysTickMaxCnt as u32);
  }

  /** A reading taken later (more overflows, or the same overflows and a lower counter)
      never gives a smaller tick. */
  lemma TickMonotone(ov1: u64, v1: u32, ov2: u64, v2: u32)
    requires v1 as int <= SysTickMaxCnt && v2 as int <= SysTickMaxCnt
    requires ov2 as int < OverflowLimit
    requires ov1 < ov2 || (ov1 == ov2 && v2 <= v1)
    ensures Tick(ov1, v1) <= Tick(ov2, v2)
  {
    TickInPeriod(ov2, v2);
    TickInPeriod(ov1, v1);
    if ov1 < ov2 {
      assert (ov1 as int + 1) * Period <= ov2 as int * Period;
    }
  }

  /** At 2^40 overflows and v = SYSTICK_MAX_CNT the unsigned formula gives 0. */
  lemma TickWrapsAtLimit()
    ensures Tick(OverflowLimit as u64, SysTickMaxCnt as u32) == 0
  {
  }

  /** The timer state: the overflow counter `elapsed_timer_ov` updated by the SysTick
      interrupt. The hardware down-counter is read by the caller and passed in. */
  class Timer {
    var ov: u64

    /** The static initialiser sets the counter to RESET_VAL. */
    constructor ()
      ensures ov as int == ResetVal
    {
      ov := ResetVal as u64;
    }

    /** elapsed_timer_init: arms the SysTick (hardware, not modelled) and resets the counter. */
    method Init() returns (st: Status)
      modifies this
      ensures ov as int == ResetVal && st == Success
    {
      ov := ResetVal as u64;
      st := Success;
    }

    /** elapsed_timer_callback: the interrupt handler counts one wrap-around (uint64 ++). */
    method OnOverflow()
      modifies this
      ensures ov as int == (old(ov) as int + 1) % U64Modulus
    {
      ov := ((ov as int + 1) % U64Modulus) as u64;
    }

    /** elapsed_timer_get_tick, with `counter` the value read from the SysTick counter. */
    method GetTick(counter: u32) returns (st: Status, tick: u64)
      ensures tick == Tick(ov, counter) && st == Success
    {
      tick := (((SysTickMaxCnt - counter as int) + ov as int * Period) % U64Modulus) as u64;
      st := Success;
    }
  }
}
