/** Delays run on the read/write manager: `delay_for_n_mem_clocks` and the three-instruction idle program. */
module DelayLoop {
  import opened Words

  const IDLE_LOOP2 := 0x7A  // jump to target 0 unless counter 0 is zero
  const IDLE_LOOP1 := 0x7B  // jump to target 1 unless counter 1 is zero
  const RETURN := 0x7C

  /** Memory clocks scaled to controller clocks, rounding up, in unsigned 32-bit arithmetic. */
  function AfiClocks(clocks: nat, ratio: nat): int
    requires 1 <= ratio && 2 * ratio <= U32
  {
    ToU32(clocks + ratio - 1) / ratio
  }

  /** n controller clocks are the fewest that cover the requested memory clocks. */
  ghost predicate Covers(n: int, clocks: nat, ratio: nat)
  {
    0 <= n && n * ratio >= clocks && (n > 0 ==> (n - 1) * ratio < clocks)
  }

  /** The scaling is right unless the rounding overflows, and then it asks for no delay at all. */
  lemma ScalingCoversIff(clocks: nat, ratio: nat)
    requires 1 <= ratio && 2 * ratio <= U32 && clocks < U32
    ensures Covers(AfiClocks(clocks, ratio), clocks, ratio) <==> clocks + ratio - 1 < U32
    ensures clocks + ratio - 1 >= U32 ==> AfiClocks(clocks, ratio) == 0
  {
    var a := ToU32(clocks + ratio - 1);
    var n := AfiClocks(clocks, ratio);
    assert a == n * ratio + a % ratio;
    if clocks + ratio - 1 < U32 {
      assert a == clocks + ratio - 1;
      assert (n - 1) * ratio == n * ratio - ratio;
    } else {
      assert a == clocks + ratio - 1 - U32 < ratio;
      DivMod(a, ratio, 0, a);
    }
  }

  lemma Product(n: nat, m: nat, ratio: nat)
    requires n <= m && 1 <= ratio
    ensures n * ratio <= m * ratio && n <= n * ratio
  {
    TimesIsProduct(n, ratio);
    TimesIsProduct(m, ratio);
    TimesMono(n, m, ratio);
    TimesAtLeast(n, ratio);
  }

  class RwManager {
    const ratio: nat     // AFI_RATE_RATIO
    const delays: bool   // skip_delay_mask keeps loop counts rather than clearing them
    var cntr0: nat
    var cntr1: nat
    var jump0: nat
    var jump1: nat
    ghost var idle1: nat  // IDLE_LOOP1 steps executed so far
    ghost var idle2: nat  // IDLE_LOOP2 steps executed so far

    function Masked(count: nat): nat
    {
      if delays then count else 0
    }

    /** The read/write manager: a jump tests its counter before decrementing it, and a counter found zero is
        reloaded as the program moves on. */
    method RunSingleGroup(start: nat)
      requires start == IDLE_LOOP1 == jump1 || start == IDLE_LOOP2 == jump0 == jump1
      modifies this`idle1, this`idle2
      ensures idle1 == old(idle1) + cntr1 + 1
      ensures idle2 == old(idle2) + (if start == IDLE_LOOP2 then Times(cntr1 + 1, cntr0 + 1) else 0)
    {
      var pc, c0, c1 := start, cntr0, cntr1;
      while pc != RETURN
        invariant pc == IDLE_LOOP2 || pc == IDLE_LOOP1 || pc == RETURN
        invariant start == IDLE_LOOP1 ==> pc != IDLE_LOOP2
        invariant idle1 + (if pc == RETURN then 0 else c1 + 1) == old(idle1) + cntr1 + 1
        invariant start == IDLE_LOOP1 ==> idle2 == old(idle2)
        invariant start == IDLE_LOOP2 ==>
          idle2 + (if pc == RETURN then 0 else Times(c1, cntr0 + 1) + if pc == IDLE_LOOP2 then c0 + 1 else 0)
          == old(idle2) + Times(cntr1 + 1, cntr0 + 1)
        invariant pc == IDLE_LOOP1 ==> c0 == cntr0
        decreases if pc == RETURN then 0 else c1 + 1, if pc == IDLE_LOOP2 then c0 + 2 else 1
      {
        if pc == IDLE_LOOP2 {
          idle2 := idle2 + 1;
          if c0 != 0 {
            pc, c0 := jump0, c0 - 1;
          } else {
            pc, c0 := IDLE_LOOP1, cntr0;
          }
        } else {
          idle1 := idle1 + 1;
          if c1 != 0 {
            pc, c1 := jump1, c1 - 1;
          } else {
            pc, c1 := RETURN, cntr1;
          }
        }
      }
    }

    /** Idle for a number of controller clocks.  Up to 256 the count is exact (but at least one step);
        up to 65536 it is exceeded by less than 256 steps, and beyond by less than 65536. */
    method Idle(n: nat)
      requires n < U32
      modifies this
      ensures n <= 0x100 ==> idle2 == old(idle2) && (delays ==> idle1 - old(idle1) == Max(1, n))
      ensures delays && 0x100 < n <= 0x10000 ==>
        n <= idle2 - old(idle2) < n + 0x100 && idle2 - old(idle2) == 0x100 * (idle1 - old(idle1))
      ensures delays && n > 0x10000 ==> n <= idle2 - old(idle2) < n + 0x10000
      ensures !delays ==> idle1 - old(idle1) == if n <= 0x10000 then 1 else (n - 1) / 0x10000 + 1
      ensures idle1 > old(idle1) && idle2 >= old(idle2)
    {
      var inner, outer, cLoop := 0, 0, 0;
      if n == 0 {
      } else if n <= 0x100 {
        inner := n - 1;
      } else if n <= 0x10000 {
        inner := 0xff;
        outer := (n - 1) / 0x100;
      } else {
        inner := 0xff;
        outer := 0xff;
        cLoop := (n - 1) / 0x10000;
      }
      assert inner <= 0xff && outer <= 0xff && cLoop <= 0xffff;
      if n <= 0x100 {
        cntr1, jump1 := Masked(inner), IDLE_LOOP1;
        RunSingleGroup(IDLE_LOOP1);
      } else {
        cntr0, cntr1 := Masked(inner), Masked(outer);
        jump0, jump1 := IDLE_LOOP2, IDLE_LOOP2;
        TimesIsProduct(cntr1 + 1, cntr0 + 1);
        if n <= 0x10000 {
          RunSingleGroup(IDLE_LOOP2);
        } else {
          Repeat(cLoop);
        }
      }
    }

    /** The outer loop in software: one run more than the counter says. */
    method Repeat(count: nat)
      requires jump0 == jump1 == IDLE_LOOP2
      requires cntr0 == cntr1 == Masked(0xff)
      modifies this`idle1, this`idle2
      ensures idle1 == old(idle1) + if delays then (count + 1) * 0x100 else count + 1
      ensures idle2 == old(idle2) + if delays then (count + 1) * 0x10000 else count + 1
    {
      var cLoop: int := count;
      ghost var done := 0;
      TimesIsProduct(cntr1 + 1, cntr0 + 1);
      while cLoop >= 0
        invariant -1 <= cLoop <= count && done == count - cLoop
        invariant idle1 == old(idle1) + if delays then done * 0x100 else done
        invariant idle2 == old(idle2) + if delays then done * 0x10000 else done
      {
        RunSingleGroup(IDLE_LOOP2);
        cLoop := cLoop - 1;
        done := done + 1;
      }
    }

    /** The delay is as long as asked for exactly when rounding the request up does not overflow; when it
        does, a single step is all the delay there is. */
    method DelayForNMemClocks(clocks: nat)
      requires 1 <= ratio && 2 * ratio <= U32 && clocks < U32
      modifies this
      ensures delays ==>
        ((idle1 + idle2 - old(idle1) - old(idle2)) * ratio >= clocks <==> clocks + ratio - 1 < U32)
      ensures clocks + ratio - 1 >= U32 ==> idle1 + idle2 - old(idle1) - old(idle2) == 1
    {
      var n := AfiClocks(clocks, ratio);
      ScalingCoversIff(clocks, ratio);
      Product(n, n, ratio);
      Idle(n);
      if delays {
        Product(n, idle1 + idle2 - old(idle1) - old(idle2), ratio);
      }
    }
  }
}
