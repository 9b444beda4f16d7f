/** The DQS-enable search: `rw_mgr_mem_calibrate_vfifo_find_dqs_en_phase`, for the hard PHY, where phase 0
    cannot be used. */
module DqsEnable {
  import opened Words

  /** Unsigned 32-bit addition and subtraction of positions; both demand that nothing wraps. */
  function Add32(a: int, b: int): int
    requires 0 <= a && 0 <= b && a + b < U32
  {
    a + b
  }

  function Sub32(a: int, b: int): int
    requires 0 <= b <= a < U32
  {
    a - b
  }

  /** The first setting that passes, and the number of the read that showed it. */
  datatype Hit = Hit(delay: int, turn: int, phase: int, n: nat)

  /** The reads of the step back before the hit, and whether the last of them passed. */
  datatype Back = Back(count: int, passed: bool)

  /** The phase at which the reads going forward fail, and the number of the read. */
  datatype Edge = Edge(turn: int, phase: int, n: nat)

  /** One window search: the hit, both ends in phases (unused after a hit at a raised delay), and the delay at which
      the last sweep failed, or one past the chain. */
  datatype Trace = Trace(hit: Hit, back: Back, edge: Edge, sweep: int)

  datatype Outcome = NoHit | NoEdge(hit: Hit, b: Back) | Window(t: Trace)

  /** How far the whole search got. */
  datatype Stage = NeverFails | NoWindow | CentreFails | Done

  class Search {
    const phaseMax: int      // IO_DQS_EN_PHASE_MAX
    const delayMax: int      // IO_DQS_EN_DELAY_MAX
    const opaTap: int        // IO_DELAY_PER_OPA_TAP, one phase
    const enTap: int         // IO_DELAY_PER_DQS_EN_DCHAIN_TAP, one delay tap
    const vfifoSize: int     // VFIFO_SIZE
    const cycle: int         // delay of one full turn of the phases
    const test: nat -> bool  // outcome of the n-th read test

    var phase: int
    var delay: int
    var vfifo: int           // increments sent to the VFIFO so far
    var tests: nat           // read tests run so far
    var dtapsReg: int        // REG_FILE_DTAPS_PER_PTAP
    ghost var turn: int      // turn of the VFIFO: one more per increment, one less per step back
    ghost var phases: seq<int>
    ghost var delays: seq<int>

    constructor (phaseMax: int, delayMax: int, opaTap: int, enTap: int, vfifoSize: int, cycle: int, test: nat -> bool)
      ensures this.phaseMax == phaseMax && this.delayMax == delayMax && this.opaTap == opaTap && this.enTap == enTap
      ensures this.vfifoSize == vfifoSize && this.cycle == cycle && this.test == test
      ensures tests == 0 && Safe()
    {
      this.phaseMax, this.delayMax, this.opaTap, this.enTap := phaseMax, delayMax, opaTap, enTap;
      this.vfifoSize, this.cycle, this.test := vfifoSize, cycle, test;
      phase, delay, vfifo, tests, dtapsReg, turn, phases, delays := 0, 0, 0, 0, 0, 0, [], [];
    }

    predicate Legal()
    {
      && 1 <= phaseMax && 0 <= delayMax && 0 < opaTap && 0 < enTap && 1 <= vfifoSize
      && cycle == Times(phaseMax + 1, opaTap)
      && opaTap <= Times(delayMax, enTap)
      && 2 * (Times(vfifoSize + 2, cycle) + Times(delayMax + 2, enTap)) < U32
    }

    /** Every phase and every delay written so far was legal. */
    ghost predicate Safe()
      reads this
    {
      && (forall p :: p in phases ==> 1 <= p <= phaseMax)
      && (forall d :: d in delays ==> 0 <= d <= delayMax)
    }

    method SetPhase(p: int)
      requires Safe() && 1 <= p <= phaseMax
      modifies this`phase, this`phases
      ensures Safe() && phase == p && phases == old(phases) + [p]
    {
      phase := p;
      phases := phases + [p];
    }

    method SetDelay(d: int)
      requires Safe() && 0 <= d <= delayMax
      modifies this`delay, this`delays
      ensures Safe() && delay == d && delays == old(delays) + [d]
    {
      delay := d;
      delays := delays + [d];
    }

    method ReadTest() returns (pass: bool)
      modifies this`tests
      ensures tests == old(tests) + 1 && pass == test(old(tests))
    {
      pass := test(tests);
      tests := tests + 1;
    }

    /** All read tests from number a on, below number b, answered `want`. */
    ghost predicate All(a: nat, b: int, want: bool)
    {
      forall n: nat :: a <= n < b ==> test(n) == want
    }

    method IncrVfifo()
      modifies this`vfifo, this`turn
      ensures vfifo == old(vfifo) + 1 && turn == old(turn) + 1
    {
      vfifo := vfifo + 1;
      turn := turn + 1;
    }

    /** The VFIFO only moves forward: one step back is a full round of it less one. */
    method DecrVfifo()
      requires 1 <= vfifoSize
      modifies this`vfifo, this`turn
      ensures vfifo == old(vfifo) + vfifoSize - 1 && turn == old(turn) - 1
    {
      for i := 0 to vfifoSize - 1
        invariant vfifo == old(vfifo) + i && turn == old(turn) + i
      {
        IncrVfifo();
      }
      turn := turn - vfifoSize;
    }

    /** Delay of phase p in turn c of the VFIFO. */
    ghost function Coarse(c: int, p: int): int
    {
      Times(c, cycle) + Times(p, opaTap)
    }

    lemma NextPhase(c: int, p: int)
      requires 0 <= p
      ensures Coarse(c, p + 1) == Coarse(c, p) + opaTap
    {
    }

    lemma NextTurn(c: int)
      requires Legal() && 0 <= c
      ensures Coarse(c, phaseMax + 1) == Coarse(c + 1, 0) == Coarse(c, 0) + cycle
    {
    }

    /** Delay of k delay taps. */
    ghost function Taps(k: int): int
    {
      Times(k, enTap)
    }

    lemma NextTap(k: int)
      requires 0 <= k
      ensures Taps(k + 1) == Taps(k) + enTap
    {
    }

    /** Every position of the search fits a word, twice. */
    lemma Fits(c: int, p: int, k: int)
      requires Legal() && 0 <= c <= vfifoSize + 1 && 0 <= p <= phaseMax + 1 && k <= delayMax + 2
      ensures 0 <= Coarse(c, p) && 0 <= Taps(k) && 2 * (Coarse(c, p) + Taps(k)) < U32
    {
      TimesMono(0, phaseMax + 1, opaTap);
      TimesMono(0, c, cycle);
      TimesMono(c, vfifoSize + 1, cycle);
      TimesMono(0, p, opaTap);
      TimesMono(p, phaseMax + 1, opaTap);
      TimesMono(k, delayMax + 2, enTap);
      assert Times(vfifoSize + 2, cycle) == Times(vfifoSize + 1, cycle) + cycle;
    }

    lemma TapFits(c: int, p: int)
      requires Legal() && 0 <= c <= vfifoSize + 1 && 0 <= p <= phaseMax + 1
      ensures 0 <= Coarse(c, p) < Coarse(c, p) + enTap < U32
      ensures Coarse(0, 1) == opaTap && Coarse(1, 0) == cycle
    {
      Fits(c, p, 1);
      assert Taps(1) == enTap && Times(1, opaTap) == opaTap && Times(1, cycle) == cycle;
    }

    /** Step 0: delay taps per phase, rounded up, less one. */
    method DtapsPerPtap() returns (n: int)
      requires Legal()
      ensures 0 <= n < delayMax && Times(n, enTap) < opaTap <= Times(n + 1, enTap)
    {
      n := 0;
      var tmpDelay := 0;
      TapFits(0, 1);
      while tmpDelay < opaTap
        invariant 0 <= n && 0 <= tmpDelay == Times(n, enTap)
        invariant n > 0 ==> Times(n - 1, enTap) < opaTap
        decreases opaTap - tmpDelay
      {
        n := n + 1;
        tmpDelay := Add32(tmpDelay, enTap);
      }
      assert n > 0;
      n := n - 1;
      if n >= delayMax {
        TimesMono(delayMax, n, enTap);
      }
    }

    /** Step 1: push the VFIFO until a second read fails; `first` is the test that failed first. */
    method PushToFailing() returns (found: bool, ghost first: nat)
      requires Legal() && Safe()
      modifies this`vfifo, this`turn, this`tests
      ensures Safe()
      ensures turn == old(turn) + (tests - old(tests)) - if found then 1 else 0
      ensures found ==>
        && old(tests) <= first < tests - 1 < old(tests) + vfifoSize && !test(first) && !test(tests - 1)
        && All(old(tests), first, true) && All(first + 1, tests - 1, true)
      ensures !found ==>
        tests == old(tests) + vfifoSize && All(old(tests), first, true) && All(first + 1, tests, true)
    {
      var v, failCnt := 0, 0;
      found, first := false, tests;
      while v < vfifoSize
        invariant 0 <= v <= vfifoSize && !found && tests == old(tests) + v && turn == old(turn) + v
        invariant failCnt == 0 ==> first == tests && All(old(tests), tests, true)
        invariant failCnt != 0 ==> failCnt == 1 && old(tests) <= first < tests && !test(first)
        invariant failCnt != 0 ==> All(old(tests), first, true) && All(first + 1, tests, true)
      {
        var pass := ReadTest();
        if !pass {
          failCnt := failCnt + 1;
          if failCnt == 2 {
            return true, first;
          }
          first := tests - 1;
        } else if failCnt == 0 {
          first := tests;
        }
        IncrVfifo();
        v := v + 1;
      }
    }

    /** Step 2: the first passing (delay, turn, phase), phase moving fastest. */
    method FirstPhase(dpp: int) returns (found: bool, d: int, i: int, p: int, workBgn: int)
      requires Legal() && Safe() && 0 <= dpp <= delayMax
      modifies this
      ensures Safe() && old(tests) <= tests
      ensures found ==>
        && 0 <= d <= dpp && 0 <= i < vfifoSize && 1 <= p <= phaseMax && phase == p && delay == d
        && workBgn == Taps(d) + Coarse(i, p)
        && tests == old(tests) + Times(d, Times(vfifoSize, phaseMax)) + Times(i, phaseMax) + p
        && turn == old(turn) + Times(d, vfifoSize) + i
        && tests > 0 && test(tests - 1) && All(old(tests), tests - 1, false)
      ensures !found ==>
        tests == old(tests) + Times(dpp + 1, Times(vfifoSize, phaseMax)) && All(old(tests), tests, false)
    {
      found, i, p, workBgn := false, 0, 0, 0;
      d := 0;
      var tmpDelay := 0;
      while d <= dpp
        invariant 0 <= d <= dpp + 1 && tmpDelay == Taps(d) && Safe() && !found
        invariant old(tests) <= tests == old(tests) + Times(d, Times(vfifoSize, phaseMax)) && All(old(tests), tests, false)
        invariant turn == old(turn) + Times(d, vfifoSize)
      {
        SetDelay(d);
        found, i, p, workBgn := FirstPhaseAt(d, tmpDelay);
        if found {
          return;
        }
        NextTap(d);
        Fits(0, 0, d);
        Fits(0, 0, d + 1);
        d := d + 1;
        tmpDelay := Add32(tmpDelay, enTap);
      }
    }

    /** The two inner loops of step 2. */
    method FirstPhaseAt(d: int, tmpDelay: int) returns (found: bool, i: int, p: int, workBgn: int)
      requires Legal() && Safe() && d <= delayMax && tmpDelay == Taps(d)
      modifies this`phase, this`phases, this`vfifo, this`turn, this`tests
      ensures Safe() && old(tests) <= tests
      ensures found ==>
        && 0 <= i < vfifoSize && 1 <= p <= phaseMax && phase == p
        && workBgn == tmpDelay + Coarse(i, p)
        && tests == old(tests) + Times(i, phaseMax) + p && turn == old(turn) + i
        && tests > 0 && test(tests - 1) && All(old(tests), tests - 1, false)
      ensures !found ==>
        && tests == old(tests) + Times(vfifoSize, phaseMax) && All(old(tests), tests, false)
        && turn == old(turn) + vfifoSize
    {
      found, i, p, workBgn := false, 0, 0, tmpDelay;
      while i < vfifoSize
        invariant 0 <= i <= vfifoSize && Safe() && !found && workBgn == tmpDelay + Coarse(i, 0)
        invariant old(tests) <= tests == old(tests) + Times(i, phaseMax) && turn == old(turn) + i
        invariant All(old(tests), tests, false)
      {
        p := 0;
        while p <= phaseMax
          invariant 0 <= p <= phaseMax + 1 && Safe() && !found && workBgn == tmpDelay + Coarse(i, p)
          invariant old(tests) <= tests == old(tests) + Times(i, phaseMax) + (if p == 0 then 0 else p - 1)
          invariant turn == old(turn) + i && All(old(tests), tests, false)
        {
          if p != 0 {
            SetPhase(p);
            var pass := ReadTest();
            if pass {
              return true, i, p, workBgn;
            }
          }
          NextPhase(i, p);
          Fits(i, p, d);
          Fits(i, p + 1, d);
          p := p + 1;
          workBgn := Add32(workBgn, opaTap);
        }
        NextTurn(i);
        IncrVfifo();
        i := i + 1;
      }
    }

    /** The next phase of the VFIFO, phase 0 of the next turn after the last one. */
    ghost function Advance(c: int, p: int): (int, int)
    {
      if p + 1 > phaseMax then (c + 1, 0) else (c, p + 1)
    }

    /** Step 3a: back off one phase (phase 1 stays, since phase 0 cannot be set), look for the first passing
        delay short of the old position, and return past the phase found.  `c` is the turn of the VFIFO;
        the phase ends up one too far when it could not back off. */
    method BackOff(p0: int, workBgn0: int, ghost c0: int) returns (p: int, workBgn: int, ghost c: int, ghost back: Back)
      requires Legal() && Safe() && 0 <= p0 <= phaseMax && 0 <= c0 && (p0 == 0 ==> 1 <= c0)
      requires opaTap <= workBgn0 && workBgn0 + enTap < U32
      modifies this
      ensures Safe() && 0 <= p <= phaseMax && (c, p) == if p0 == 1 then Advance(c0, 1) else (c0, p0)
      ensures Coarse(c, p) == Coarse(c0, p0) + (if p0 == 1 then opaTap else 0)
      ensures delay == 0 && turn - old(turn) == c - c0
      // the beginning moves to the first delay that passes, if there is one
      ensures tests == old(tests) + back.count && IsBack(p0, old(tests), back)
      ensures workBgn == if back.passed then workBgn0 - opaTap + Taps(back.count - 1) else workBgn0
      ensures workBgn0 - opaTap <= workBgn <= workBgn0
    {
      p, c := p0, c0;
      workBgn := workBgn0;
      if p == 0 {
        NextTurn(c - 1);
        p := phaseMax;
        DecrVfifo();
        c := c - 1;
      } else {
        p := p - 1;
      }
      NextPhase(c, p);
      var tmpDelay := Sub32(workBgn, opaTap);
      if p == 0 {
        p := 1;
        tmpDelay := workBgn;
      }
      SetPhase(p);
      workBgn, back := FirstDelay(p0, workBgn, tmpDelay);
      NextPhase(c, p);
      p := p + 1;
      if p > phaseMax {
        NextTurn(c);
        p := 0;
        IncrVfifo();
        c := c + 1;
      }
      SetDelay(0);
    }

    /** The reads from number n on while stepping back: none from phase 1; otherwise one per delay until one passes
        or a whole phase is covered. */
    ghost predicate IsBack(p0: int, n: nat, b: Back)
    {
      if p0 == 1 then b == Back(0, false)
      else
        && 1 <= b.count <= delayMax + 1 && Taps(b.count - 1) < opaTap && All(n, n + b.count - 1, false)
        && test(n + b.count - 1) == b.passed && (!b.passed ==> opaTap <= Taps(b.count))
    }

    /** The delay loop of step 3a. */
    method FirstDelay(ghost p0: int, workBgn0: int, tmpDelay0: int) returns (workBgn: int, ghost back: Back)
      requires Legal() && Safe() && opaTap <= workBgn0 && workBgn0 + enTap < U32
      requires tmpDelay0 == if p0 == 1 then workBgn0 else workBgn0 - opaTap
      modifies this`delay, this`delays, this`tests
      ensures Safe() && tests == old(tests) + back.count && IsBack(p0, old(tests), back)
      ensures workBgn == if back.passed then workBgn0 - opaTap + Taps(back.count - 1) else workBgn0
      ensures workBgn0 - opaTap <= workBgn <= workBgn0
    {
      workBgn := workBgn0;
      var tmpDelay := tmpDelay0;
      var d := 0;
      back := Back(0, false);
      while d <= delayMax && tmpDelay < workBgn
        invariant 0 <= d <= delayMax + 1 && Safe() && workBgn == workBgn0 && back == Back(d, false)
        invariant tmpDelay == tmpDelay0 + Taps(d) && 0 <= Taps(d) && (d > 0 ==> p0 != 1 && Taps(d - 1) < opaTap)
        invariant tests == old(tests) + d && All(old(tests), tests, false)
      {
        SetDelay(d);
        var pass := ReadTest();
        back := Back(d + 1, pass);
        if pass {
          workBgn := tmpDelay;
          break;
        }
        NextTap(d);
        d := d + 1;
        tmpDelay := Add32(tmpDelay, enTap);
      }
    }

    /** Where the beginning is after the first test of step 4a, number n: a failure at once moves it there,
        unless the step starts with the phase that is skipped. */
    ghost function FuzzyBegin(n: nat, p0: int, at: int, workBgn: int): int
    {
      if p0 != 0 && !test(n) then at else workBgn
    }

    /** How many usable phases lie before phase p of turn c. */
    ghost function Index(c: int, p: int): int
    {
      Times(c, phaseMax) + if p == 0 then 0 else p - 1
    }

    /** Step 4a: go forward in phases until a read fails.  A failure at the very first phase moves the
        beginning instead.  `lag` is how far workEnd trails the true position. */
    method GoForward(i0: int, p0: int, workBgn0: int, workEnd0: int, ghost c0: int, ghost lag: int)
      returns (found: bool, p: int, workBgn: int, workEnd: int, ghost c: int)
      requires Legal() && Safe() && 0 <= i0 < vfifoSize && 0 <= p0 <= phaseMax
      requires i0 <= c0 <= i0 + 1 && (c0 == i0 || p0 == 0)
      requires 0 <= lag && workEnd0 + lag == Coarse(c0, p0) && opaTap <= workEnd0 && 0 < workBgn0 <= workEnd0
      modifies this
      ensures Safe() && turn - old(turn) == c - c0 && old(tests) <= tests
      ensures found ==>
        && 1 <= p <= phaseMax && phase == p && workEnd + lag == Coarse(c, p) && 0 <= c <= vfifoSize + 1
        && 2 * opaTap <= workEnd && workBgn0 <= workBgn <= workEnd
        && tests > 0 && IsEdge(Advance(c0, p0), old(tests), Edge(c, p, tests - 1))
        && c <= vfifoSize + Advance(c0, p0).0 - i0
      ensures workBgn == FuzzyBegin(old(tests), Advance(c0, p0).1, workEnd0 + opaTap, workBgn0)
      ensures !found ==>
        && tests == old(tests) + Index(vfifoSize + 1 + Advance(c0, p0).0 - i0, 0) - Index(Advance(c0, p0).0, Advance(c0, p0).1)
        && All(FirstEdge(Advance(c0, p0), old(tests)), tests, true)
    {
      NextPhase(c0, p0);
      p, c, workBgn := p0 + 1, c0, workBgn0;
      Fits(c, p, 0);
      workEnd := Add32(workEnd0, opaTap);
      if p > phaseMax {
        NextTurn(c);
        p := 0;
        IncrVfifo();
        c := c + 1;
      }
      ghost var begin := FuzzyBegin(tests, p, workEnd, workBgn);
      ghost var first := (c, p);
      found := false;
      var i, j := i0, 0;
      while i < vfifoSize + 1
        invariant i0 <= i <= vfifoSize + 1 && 0 <= p <= phaseMax && Safe() && !found && 0 <= j
        invariant i <= c <= i + 1 && workEnd + lag == Coarse(c, p) && turn - old(turn) == c - c0
        invariant 2 * opaTap <= workEnd && workBgn0 <= workBgn <= workEnd && old(tests) <= tests
        invariant i == i0 ==>
          j == 0 && tests == old(tests) && workBgn == workBgn0 && (c, p) == first && workEnd == workEnd0 + opaTap
        invariant i > i0 ==> 1 <= j && p == 0 && workBgn == begin
        invariant i > i0 ==> FirstEdge(first, old(tests)) <= tests && All(FirstEdge(first, old(tests)), tests, true)
        invariant c - i == first.0 - i0 && tests == old(tests) + Index(c, p) - Index(first.0, first.1)
      {
        found, p, j, workBgn, workEnd := ForwardOneTurn(p, j, workBgn, workEnd, c, lag);
        if found {
          return;
        }
        NextTurn(c);
        IncrVfifo();
        p, c, i := 0, c + 1, i + 1;
      }
    }

    /** The first read that can end the way forward: not the very first one, unless it comes after the skipped phase. */
    ghost function FirstEdge(from: (int, int), n: nat): nat
    {
      if from.1 == 0 then n else n + 1
    }

    /** Going forward from a phase with read number n, every usable phase is read; the edge is the first to fail. */
    ghost predicate IsEdge(from: (int, int), n: nat, e: Edge)
    {
      && 1 <= e.phase <= phaseMax && 0 <= e.turn && e.n == n + Index(e.turn, e.phase) - Index(from.0, from.1)
      && FirstEdge(from, n) <= e.n && !test(e.n) && All(FirstEdge(from, n), e.n, true)
    }

    /** The inner loop of step 4a. */
    method ForwardOneTurn(p0: int, j0: int, workBgn0: int, workEnd0: int, ghost c: int, ghost lag: int)
      returns (found: bool, p: int, j: int, workBgn: int, workEnd: int)
      requires Legal() && Safe() && 0 <= p0 <= phaseMax && 0 <= c <= vfifoSize + 1 && 0 <= j0
      requires 0 <= lag && workEnd0 + lag == Coarse(c, p0) && 2 * opaTap <= workEnd0 && workBgn0 <= workEnd0
      modifies this`phase, this`phases, this`tests
      ensures Safe() && workEnd + lag == Coarse(c, p) && workEnd0 <= workEnd && workBgn0 <= workBgn <= workEnd && 1 <= j
      ensures found ==>
        && 1 <= p <= phaseMax && phase == p && tests > old(tests) && !test(tests - 1)
        && tests - 1 == old(tests) + Index(c, p) - Index(c, p0)
      ensures !found ==> p == phaseMax + 1 && tests == old(tests) + Index(c + 1, 0) - Index(c, p0)
      ensures old(tests) <= tests
      ensures workBgn == if j0 == 0 then FuzzyBegin(old(tests), p0, workEnd0, workBgn0) else workBgn0
      ensures var n := if j0 == 0 then FirstEdge((c, p0), old(tests)) else old(tests);
        n <= (if found then tests - 1 else tests) && All(n, if found then tests - 1 else tests, true)
    {
      found, p, j, workBgn, workEnd := false, p0, j0, workBgn0, workEnd0;
      while p <= phaseMax
        invariant p0 <= p <= phaseMax + 1 && Safe() && !found && j == j0 + (p - p0)
        invariant workEnd + lag == Coarse(c, p) && workEnd0 <= workEnd && workBgn0 <= workBgn <= workEnd
        invariant p == p0 ==> tests == old(tests) && workBgn == workBgn0
        invariant p > p0 ==>
          workBgn == if j0 == 0 then FuzzyBegin(old(tests), p0, workEnd0, workBgn0) else workBgn0
        invariant old(tests) <= tests == old(tests) + Index(c, p) - Index(c, p0)
        invariant All(if j0 == 0 then FirstEdge((c, p0), old(tests)) else old(tests), tests, true)
        invariant p == p0 ==> workEnd == workEnd0
      {
        j := j + 1;
        if p != 0 {
          SetPhase(p);
          var pass := ReadTest();
          if !pass && j == 1 {
            workBgn := workEnd;
          } else if !pass {
            return true, p, j, workBgn, workEnd;
          }
        }
        NextPhase(c, p);
        Fits(c, p + 1, 0);
        p := p + 1;
        workEnd := Add32(workEnd, opaTap);
      }
    }

    /** Step 5a: back off one usable phase from the failing one. */
    method BackToPassing(p0: int, workEnd0: int, ghost c0: int, ghost lag: int) returns (p: int, workEnd: int, ghost c: int)
      requires Legal() && Safe() && 1 <= p0 <= phaseMax && 2 * opaTap <= workEnd0 < U32
      requires workEnd0 + lag == Coarse(c0, p0) && 0 <= lag && 0 <= c0
      modifies this`phase, this`phases, this`vfifo, this`turn
      ensures Safe() && 1 <= p <= phaseMax && phase == p && workEnd + lag == Coarse(c, p) && 0 <= workEnd <= workEnd0
      ensures 0 <= c <= c0 && turn - old(turn) == c - c0
      ensures (c, p) == if p0 == 1 then (c0 - 1, phaseMax) else (c0, p0 - 1)
    {
      p, c, workEnd := p0, c0, workEnd0;
      if p == 1 {
        NextPhase(c, 0);
        assert 1 <= c;
        p := 0;
        workEnd := Sub32(workEnd, opaTap);
      }
      if p == 0 {
        NextTurn(c - 1);
        NextPhase(c - 1, phaseMax);
        p := phaseMax;
        DecrVfifo();
        c := c - 1;
      } else {
        NextPhase(c, p - 1);
        p := p - 1;
      }
      workEnd := Sub32(workEnd, opaTap);
      SetPhase(p);
    }

    lemma TapsMono(k: int, n: int)
      requires 0 <= k <= n && 0 <= enTap
      ensures 0 <= Taps(k) <= Taps(n)
    {
      TimesMono(0, k, enTap);
      TimesMono(k, n, enTap);
    }

    /** The delay sweep to the failing edge, and one tap back; `base` is the position at delay 0. */
    method DelayToFailing(d0: int, workEnd0: int, ghost base: int) returns (d: int, workEnd: int)
      requires Safe() && 0 < enTap && 0 <= d0 <= delayMax
      requires 0 <= base && workEnd0 == base + Taps(d0) && base + Taps(delayMax + 1) < U32
      modifies this`delay, this`delays, this`tests
      ensures Safe() && d0 <= d <= delayMax + 1
      ensures 0 <= workEnd < U32 && workEnd == base + Taps(if d == 0 then 0 else d - 1)
      ensures tests == old(tests) + (d - d0) + (if d <= delayMax then 1 else 0)
      ensures All(old(tests), old(tests) + (d - d0), true) && (d <= delayMax ==> !test(tests - 1))
      ensures delay == if d <= delayMax then d else delayMax
    {
      TapsMono(d0, delayMax + 1);
      d, workEnd := d0, workEnd0;
      while d <= delayMax
        invariant d0 <= d <= delayMax + 1 && Safe() && workEnd == base + Taps(d) && base <= workEnd < U32
        invariant tests == old(tests) + (d - d0) && All(old(tests), tests, true) && (d > d0 ==> delay == d - 1)
      {
        SetDelay(d);
        var pass := ReadTest();
        if !pass {
          break;
        }
        NextTap(d);
        TapsMono(d + 1, delayMax + 1);
        d := d + 1;
        workEnd := Add32(workEnd, enTap);
      }
      if d != 0 {
        NextTap(d - 1);
        TapsMono(d - 1, delayMax + 1);
        workEnd := Sub32(workEnd, enTap);
      }
    }

    /** Raise the delay until a read outcome equals `want`; d is past the chain when none did. */
    method DelayUntil(d0: int, want: bool) returns (d: int, found: bool)
      requires Safe() && 0 <= d0 <= delayMax + 1
      modifies this`delay, this`delays, this`tests
      ensures Safe() && d0 <= d <= delayMax + 1 && tests >= old(tests)
      ensures found ==>
        && d <= delayMax && delay == d && tests == old(tests) + (d - d0) + 1
        && test(tests - 1) == want && All(old(tests), tests - 1, !want)
      ensures !found ==> d == delayMax + 1 && tests == old(tests) + (d - d0) && All(old(tests), tests, !want)
    {
      d, found := d0, false;
      while d <= delayMax
        invariant d0 <= d <= delayMax + 1 && Safe() && !found
        invariant tests == old(tests) + (d - d0) && All(old(tests), tests, !want)
      {
        SetDelay(d);
        var pass := ReadTest();
        if pass == want {
          return d, true;
        }
        d := d + 1;
      }
    }

    lemma ChainFits()
      requires Legal()
      ensures delayMax + 2 < U32
    {
      TimesAtLeast(delayMax + 2, enTap);
      TimesMono(0, phaseMax + 1, opaTap);
      TimesMono(0, vfifoSize + 2, cycle);
    }

    /** Measure the delay taps of one phase, from one usable phase below: from the old failing delay d0 to a
        pass and on to a failure.  The register gets the count, or the static one if there is no such tap. */
    method MeasurePhase(p0: int, d0: int, dpp: int) returns (p: int, ghost pass: nat, ghost measured: bool)
      requires Legal() && Safe() && 1 <= p0 <= phaseMax && 0 <= d0 <= delayMax + 1 && 0 <= dpp <= delayMax
      modifies this
      ensures Safe() && phase == p == (if p0 == 1 then phaseMax else p0 - 1)
      ensures turn == old(turn) - if p0 == 1 then 1 else 0
      // the reads fail up to number `pass`, pass from there on, and fail again if the phase was measured
      ensures old(tests) <= pass <= tests && All(old(tests), pass, false)
      ensures measured ==>
        && pass < tests - 1 && All(pass, tests - 1, true) && !test(tests - 1)
        && delay == d0 + dtapsReg && dtapsReg == tests - 1 - old(tests) <= delayMax
      ensures !measured ==>
        && All(pass, tests, true) && tests == old(tests) + (delayMax + 1 - d0) && dtapsReg == dpp
    {
      p := p0;
      if p == 0 || p == 1 {
        p := phaseMax;
        DecrVfifo();
      } else {
        p := p - 1;
      }
      SetPhase(p);
      ChainFits();
      var d, foundPassing := DelayUntil(d0, true);
      pass := if foundPassing then tests - 1 else tests;
      var foundFailing := false;
      if foundPassing {
        d, foundFailing := DelayUntil(d + 1, false);
      }
      measured := foundPassing && foundFailing;
      dtapsReg := if foundPassing && foundFailing then Sub32(d, d0) else dpp;
    }

    /** The phase and delay chosen for a midpoint `rest` of one turn lie at or above it by less than one
        delay tap; but a midpoint inside phase 0 falls back to phase 1 without delay. */
    ghost predicate IsCentre(rest: int, p: int, d: int)
    {
      && 0 < rest <= cycle && 1 <= p <= phaseMax && 0 <= d <= delayMax
      && if rest <= opaTap then p == 1 && d == 0 else rest <= Coarse(0, p) + Taps(d) < rest + enTap
    }

    /** The delay of all phases together. */
    method OneTurn() returns (tmpDelay: int)
      requires Legal()
      ensures tmpDelay == cycle > 0
    {
      tmpDelay := 0;
      var p := 0;
      while p <= phaseMax
        invariant 0 <= p <= phaseMax + 1 && tmpDelay == Coarse(0, p)
      {
        NextPhase(0, p);
        Fits(0, p, 0);
        Fits(0, p + 1, 0);
        p := p + 1;
        tmpDelay := Add32(tmpDelay, opaTap);
      }
      NextTurn(0);
      TimesMono(0, phaseMax, opaTap);
    }

    /** Reduce the midpoint to one turn. */
    method ReduceToTurn(workMid0: int, tmpDelay: int) returns (workMid: int, ghost turns: nat)
      requires Legal() && 0 < workMid0 < U32 && tmpDelay == cycle > 0
      ensures workMid0 == Coarse(turns, 0) + workMid && 0 < workMid <= cycle
    {
      workMid, turns := workMid0, 0;
      while workMid > tmpDelay
        invariant 0 < workMid <= workMid0 && workMid0 == Coarse(turns, 0) + workMid
        decreases workMid
      {
        NextTurn(turns);
        workMid := Sub32(workMid, tmpDelay);
        turns := turns + 1;
      }
    }

    /** Step 6: reduce the midpoint to one turn, split it into a phase and a delay and program them. */
    method Quantise(workMid0: int) returns (p: int, d: int, ghost turns: nat, ghost rest: int)
      requires Legal() && Safe() && 0 < workMid0 < U32
      modifies this`phase, this`phases, this`delay, this`delays
      ensures Safe() && phase == p && delay == d
      ensures workMid0 == Coarse(turns, 0) + rest && IsCentre(rest, p, d)
    {
      var tmpDelay := OneTurn();
      var workMid;
      workMid, turns := ReduceToTurn(workMid0, tmpDelay);
      rest := workMid;
      p, tmpDelay := SplitPhase(workMid);
      d := SplitDelay(workMid, tmpDelay);
      if p == 1 {
        p := 2;
        d := 0;
      }
      p := p - 1;
      SetPhase(p);
      SetDelay(d);
    }

    /** Count phases until the midpoint is reached, and step one back. */
    method SplitPhase(workMid: int) returns (p: int, tmpDelay: int)
      requires Legal() && 0 < workMid <= cycle
      ensures 1 <= p <= phaseMax + 1 && tmpDelay == Coarse(0, p - 1)
      ensures 0 <= tmpDelay < workMid <= tmpDelay + opaTap && (p == 1 <==> workMid <= opaTap)
    {
      tmpDelay := 0;
      p := 0;
      NextTurn(0);
      while p <= phaseMax && tmpDelay < workMid
        invariant 0 <= p <= phaseMax + 1 && tmpDelay == Coarse(0, p) && 0 <= tmpDelay < U32
        invariant p > 0 ==> opaTap <= tmpDelay
        invariant p > 0 ==> tmpDelay - opaTap < workMid
        invariant p == 1 ==> tmpDelay == opaTap
        invariant p > 1 ==> opaTap < workMid
      {
        NextPhase(0, p);
        Fits(0, p + 1, 0);
        p := p + 1;
        tmpDelay := Add32(tmpDelay, opaTap);
      }
      NextPhase(0, p - 1);
      tmpDelay := Sub32(tmpDelay, opaTap);
    }

    /** Count delay taps until the midpoint is reached. */
    method SplitDelay(workMid: int, coarse: int) returns (d: int)
      requires Legal() && 0 <= coarse < workMid <= coarse + opaTap && workMid <= cycle
      ensures 0 <= d <= delayMax && workMid <= coarse + Taps(d) < workMid + enTap
    {
      var tmpDelay := coarse;
      d := 0;
      TapFits(1, 0);
      while d <= delayMax && tmpDelay < workMid
        invariant 0 <= d <= delayMax + 1 && coarse <= tmpDelay == coarse + Taps(d) < workMid + enTap
        invariant d == delayMax + 1 ==> coarse + Taps(delayMax) < workMid
      {
        NextTap(d);
        d := d + 1;
        tmpDelay := Add32(tmpDelay, enTap);
      }
    }

    /** Push the VFIFO until the chosen setting passes. */
    method PushToPassing() returns (found: bool)
      requires Legal()
      modifies this`vfifo, this`turn, this`tests
      ensures found ==> tests > old(tests) && test(tests - 1) && All(old(tests), tests - 1, false)
      ensures !found ==> tests == old(tests) + vfifoSize && All(old(tests), tests, false)
      ensures turn == old(turn) + (tests - old(tests)) - if found then 1 else 0
    {
      var i := 0;
      found := false;
      while i < vfifoSize
        invariant 0 <= i <= vfifoSize && !found && turn == old(turn) + i
        invariant tests == old(tests) + i && All(old(tests), tests, false)
      {
        var pass := ReadTest();
        if pass {
          return true;
        }
        IncrVfifo();
        i := i + 1;
      }
    }

    /** How far the end position trails the true one after a first hit at (delay d, phase p). */
    ghost function Lag(d: int, p: int): int
    {
      if d == 0 && p == 1 then opaTap else 0
    }

    lemma FirstPosition(i: int, p: int)
      requires Legal() && 0 <= i < vfifoSize && 1 <= p <= phaseMax
      ensures opaTap <= Coarse(i, p) < U32 && (p > 1 ==> 2 * opaTap <= Coarse(i, p))
    {
      Fits(i, p, 0);
      Fits(i, 0, 0);
      assert Times(1, opaTap) == opaTap && Times(2, opaTap) == 2 * opaTap;
      TimesMono(if p > 1 then 2 else 1, p, opaTap);
    }

    // What one run of the window search is: settings with the numbers of the reads that showed them.

    /** Reads from number n0 on first pass at this setting, in the order delay, turn, phase. */
    ghost predicate IsHit(n0: nat, dpp: int, h: Hit)
    {
      && 0 <= h.delay <= dpp && 0 <= h.turn < vfifoSize && 1 <= h.phase <= phaseMax
      && h.n == n0 + Times(h.delay, Times(vfifoSize, phaseMax)) + Times(h.turn, phaseMax) + h.phase - 1
      && test(h.n) && All(n0, h.n, false)
    }

    /** Where the way forward starts: past the hit, or one phase further when the hit could not be backed off. */
    ghost function ForwardFrom(h: Hit): (int, int)
    {
      if h.phase == 1 then Advance(Advance(h.turn, 1).0, Advance(h.turn, 1).1) else Advance(h.turn, h.phase)
    }

    ghost function ForwardRead(h: Hit, b: Back): int
    {
      h.n + 1 + b.count
    }

    /** The true position of the hit. */
    ghost function HitAt(h: Hit): int
    {
      Taps(h.delay) + Coarse(h.turn, h.phase)
    }

    /** The recorded beginning: moved past the hit by a failure at once, else moved before it by the step back. */
    ghost function BeginOf(h: Hit, b: Back): int
    {
      if h.delay != 0 then HitAt(h)
      else if 0 <= ForwardRead(h, b) && ForwardFrom(h).1 != 0 && !test(ForwardRead(h, b)) then HitAt(h) + opaTap
      else if b.passed then HitAt(h) - opaTap + Taps(b.count - 1)
      else HitAt(h)
    }

    /** Turn and phase of the end: the hit's own, or one usable phase before the edge. */
    ghost function EndSetting(t: Trace): (int, int)
    {
      if t.hit.delay != 0 then (t.hit.turn, t.hit.phase)
      else if t.edge.phase == 1 then (t.edge.turn - 1, phaseMax)
      else (t.edge.turn, t.edge.phase - 1)
    }

    /** The first read of the last sweep. */
    ghost function SweepRead(t: Trace): int
    {
      if t.hit.delay != 0 then t.hit.n + 1 else t.edge.n + 1
    }

    /** The true position of the end: the last delay of the sweep that passed, or the phase itself if none did. */
    ghost function EndAt(t: Trace): int
    {
      Coarse(EndSetting(t).0, EndSetting(t).1) + Taps(if t.sweep == 0 then 0 else t.sweep - 1)
    }

    /** The usable phase after this one. */
    ghost function NextUsable(c: int, p: int): (int, int)
    {
      if Advance(c, p).1 == 0 then (Advance(c, p).0, 1) else Advance(c, p)
    }

    /** The end of a window that began at delay 0 is the usable phase just before the one that failed. */
    lemma EndIsBeforeEdge(t: Trace)
      requires Legal() && t.hit.delay == 0 && 1 <= t.edge.phase <= phaseMax
      ensures NextUsable(EndSetting(t).0, EndSetting(t).1) == (t.edge.turn, t.edge.phase)
      ensures 1 <= EndSetting(t).1 <= phaseMax
    {
    }

    /** What the recorded beginning is: the position of the first hit; or, when stepping back found a passing delay,
        that delay at the phase before; or, when the first read forward failed, the phase that read was made at, short
        of it by the lag. */
    lemma BeginIs(h: Hit, b: Back)
      requires Legal() && 0 <= h.turn && 0 <= h.delay && 1 <= h.phase <= phaseMax && (h.delay != 0 || IsBack(h.phase, h.n + 1, b))
      ensures h.delay != 0 ==> BeginOf(h, b) == Coarse(h.turn, h.phase) + Taps(h.delay)
      ensures var f := ForwardFrom(h); h.delay == 0 && f.1 != 0 && !test(h.n + 1 + b.count) ==>
        BeginOf(h, b) + Lag(h.delay, h.phase) == Coarse(f.0, f.1)
      ensures var f := ForwardFrom(h); h.delay == 0 && (f.1 == 0 || test(h.n + 1 + b.count)) ==>
        BeginOf(h, b) == if b.passed then Coarse(h.turn, h.phase - 1) + Taps(b.count - 1) else Coarse(h.turn, h.phase)
    {
      var f := ForwardFrom(h);
      NextPhase(h.turn, h.phase - 1);
      NextPhase(h.turn, h.phase);
      NextTurn(h.turn);
      if h.phase == 1 {
        NextPhase(Advance(h.turn, 1).0, Advance(h.turn, 1).1);
        NextTurn(Advance(h.turn, 1).0);
      }
      assert Taps(0) == 0;
    }

    /** From the hit on a window search went as t says; read n comes next. */
    ghost predicate IsTrace(t: Trace, n: nat)
    {
      && (if t.hit.delay != 0 then t.back == Back(0, false) && t.edge == Edge(0, 0, 0)
          else IsBack(t.hit.phase, t.hit.n + 1, t.back) && 0 <= ForwardRead(t.hit, t.back)
               && IsEdge(ForwardFrom(t.hit), ForwardRead(t.hit, t.back), t.edge)
               && t.edge.turn <= vfifoSize + ForwardFrom(t.hit).0 - t.hit.turn)
      && t.hit.delay <= t.sweep <= delayMax + 1 && 0 <= SweepRead(t)
      && All(SweepRead(t), SweepRead(t) + t.sweep - t.hit.delay, true)
      && (t.sweep <= delayMax ==> !test(SweepRead(t) + t.sweep - t.hit.delay))
      && n == SweepRead(t) + t.sweep - t.hit.delay + if t.sweep <= delayMax then 1 else 0
    }

    /** After the hit no read fails going forward, as far as the search goes; read n comes next. */
    ghost predicate NeverEnds(h: Hit, b: Back, n: nat)
    {
      && h.delay == 0 && IsBack(h.phase, h.n + 1, b) && 0 <= ForwardRead(h, b)
      && n == ForwardRead(h, b) + Index(vfifoSize + 1 + ForwardFrom(h).0 - h.turn, 0) - Index(ForwardFrom(h).0, ForwardFrom(h).1)
      && All(FirstEdge(ForwardFrom(h), ForwardRead(h, b)), n, true)
    }

    /** What the window search from read n0 to read n saw. */
    ghost predicate Saw(n0: nat, n: nat, dpp: int, how: Outcome)
    {
      match how
      case NoHit => n == n0 + Times(dpp + 1, Times(vfifoSize, phaseMax)) && All(n0, n, false)
      case NoEdge(h, b) => IsHit(n0, dpp, h) && NeverEnds(h, b, n)
      case Window(t) => IsHit(n0, dpp, t.hit) && IsTrace(t, n)
    }

    // The outcomes determine what is seen.

    /** Equal counts of whole rounds of w > r and r more have equal parts. */
    lemma CountUnique(w: nat, a: nat, r: nat, b: nat, s: nat)
      requires r < w && s < w && Times(a, w) + r == Times(b, w) + s
      ensures a == b && r == s
    {
      TimesIsProduct(a, w);
      TimesIsProduct(b, w);
      QuotientUnique(w, a, r, b, s);
    }

    /** A hit lies within the reads of the search. */
    lemma HitBound(n0: nat, dpp: int, h: Hit)
      requires Legal() && IsHit(n0, dpp, h)
      ensures 0 <= Times(h.turn, phaseMax) + h.phase - 1 < Times(vfifoSize, phaseMax)
      ensures n0 <= h.n < n0 + Times(dpp + 1, Times(vfifoSize, phaseMax))
    {
      TimesMono(0, h.turn, phaseMax);
      TimesMono(h.turn + 1, vfifoSize, phaseMax);
      assert Times(h.turn + 1, phaseMax) == Times(h.turn, phaseMax) + phaseMax;
      var round := Times(vfifoSize, phaseMax);
      TimesMono(0, h.delay, round);
      TimesMono(h.delay + 1, dpp + 1, round);
      assert Times(h.delay + 1, round) == Times(h.delay, round) + round;
    }

    lemma HitUnique(n0: nat, dpp: int, a: Hit, b: Hit)
      requires Legal() && IsHit(n0, dpp, a) && IsHit(n0, dpp, b)
      ensures a == b
    {
      HitBound(n0, dpp, a);
      HitBound(n0, dpp, b);
      assert a.n == b.n;
      CountUnique(Times(vfifoSize, phaseMax), a.delay, Times(a.turn, phaseMax) + a.phase - 1,
                  b.delay, Times(b.turn, phaseMax) + b.phase - 1);
      CountUnique(phaseMax, a.turn, a.phase - 1, b.turn, b.phase - 1);
    }

    lemma BackUnique(p0: int, n: nat, a: Back, b: Back)
      requires Legal() && IsBack(p0, n, a) && IsBack(p0, n, b) && a.count <= b.count
      ensures a == b
    {
      if p0 != 1 && a.count < b.count {
        TapsMono(a.count, b.count - 1);
      }
    }

    lemma EdgeUnique(from: (int, int), n: nat, a: Edge, b: Edge)
      requires Legal() && IsEdge(from, n, a) && IsEdge(from, n, b)
      ensures a == b
    {
      assert a.n == b.n;
      CountUnique(phaseMax, a.turn, a.phase - 1, b.turn, b.phase - 1);
    }

    /** From the hit on, the outcomes determine whether an end is found, and where. */
    lemma RestUnique(a: Trace, n: nat, b: Trace, m: nat)
      requires Legal() && a.hit == b.hit && IsTrace(a, n) && IsTrace(b, m)
      ensures a == b && n == m
    {
      if a.hit.delay == 0 {
        if a.back.count <= b.back.count {
          BackUnique(a.hit.phase, a.hit.n + 1, a.back, b.back);
        } else {
          BackUnique(a.hit.phase, a.hit.n + 1, b.back, a.back);
        }
        EdgeUnique(ForwardFrom(a.hit), ForwardRead(a.hit, a.back), a.edge, b.edge);
      }
      SweepUnique(a.hit.delay, SweepRead(a), a.sweep, b.sweep);
    }

    lemma SweepUnique(d0: int, n: nat, a: int, b: int)
      requires d0 <= a <= delayMax + 1 && d0 <= b <= delayMax + 1
      requires All(n, n + a - d0, true) && (a <= delayMax ==> !test(n + a - d0))
      requires All(n, n + b - d0, true) && (b <= delayMax ==> !test(n + b - d0))
      ensures a == b
    {
    }

    lemma NoEdgeUnique(h: Hit, a: Back, n: nat, b: Back, m: nat)
      requires Legal() && NeverEnds(h, a, n) && NeverEnds(h, b, m)
      ensures a == b && n == m
    {
      if a.count <= b.count {
        BackUnique(h.phase, h.n + 1, a, b);
      } else {
        BackUnique(h.phase, h.n + 1, b, a);
      }
    }

    lemma EndsOrNot(t: Trace, n: nat, b: Back, m: nat)
      requires Legal() && IsTrace(t, n)
      ensures !NeverEnds(t.hit, b, m)
    {
      var h := t.hit;
      if NeverEnds(h, b, m) {
        var last := vfifoSize + 1 + ForwardFrom(h).0 - h.turn;
        TimesMono(t.edge.turn + 1, last, phaseMax);
        NextTimes(t.edge.turn);
        if t.back.count <= b.count {
          BackUnique(h.phase, h.n + 1, t.back, b);
        } else {
          BackUnique(h.phase, h.n + 1, b, t.back);
        }
      }
    }

    lemma NextTimes(c: nat)
      ensures Times(c + 1, phaseMax) == Times(c, phaseMax) + phaseMax
    {
    }

    /** The outcomes determine what the window search sees, hence both ends, and how many reads it takes. */
    lemma SawUnique(n0: nat, dpp: int, n: nat, a: Outcome, m: nat, b: Outcome)
      requires Legal() && 0 <= dpp && Saw(n0, n, dpp, a) && Saw(n0, m, dpp, b)
      ensures a == b && n == m
    {
      match (a, b)
      case (NoHit, NoHit) =>
      case (NoHit, _) => HitBound(n0, dpp, HitOf(b));
      case (_, NoHit) => HitBound(n0, dpp, HitOf(a));
      case (NoEdge(h, c), NoEdge(k, d)) =>
        HitUnique(n0, dpp, h, k);
        NoEdgeUnique(h, c, n, d, m);
      case (Window(t), Window(u)) =>
        HitUnique(n0, dpp, t.hit, u.hit);
        RestUnique(t, n, u, m);
      case (Window(t), NoEdge(k, d)) =>
        HitUnique(n0, dpp, t.hit, k);
        EndsOrNot(t, n, d, m);
      case (NoEdge(h, c), Window(u)) =>
        HitUnique(n0, dpp, h, u.hit);
        EndsOrNot(u, m, c, n);
    }

    ghost function HitOf(how: Outcome): Hit
      requires !how.NoHit?
    {
      if how.NoEdge? then how.hit else how.t.hit
    }

    /** Steps 3a to 5a, for a first hit at delay 0: find the last passing phase.  Positions trail the true
        ones by one phase exactly when the first hit was at phase 1, which cannot be backed off. */
    method PhaseWindow(ghost h: Hit, i: int, p0: int, workBgn0: int)
      returns (found: bool, p: int, workBgn: int, workEnd: int, ghost b: Back, ghost e: Edge)
      requires Legal() && Safe() && 0 <= i < vfifoSize && 1 <= p0 <= phaseMax && workBgn0 == Coarse(i, p0)
      requires h == Hit(0, i, p0, h.n) && tests == h.n + 1
      modifies this
      ensures Safe() && IsBack(p0, old(tests), b) && ForwardRead(h, b) <= tests
      ensures workBgn == BeginOf(h, b)
      ensures found ==>
        && IsEdge(ForwardFrom(h), ForwardRead(h, b), e) && tests == e.n + 1
        && e.turn <= vfifoSize + ForwardFrom(h).0 - i
        && 1 <= p <= phaseMax && phase == p && opaTap <= workBgn && 0 <= workEnd
        && var end := EndSetting(Trace(h, b, e, 0));
          && p == end.1 && 0 <= end.0 <= vfifoSize + 1 && workEnd + Lag(0, p0) == Coarse(end.0, p)
          && turn - old(turn) == end.0 - i
      ensures !found ==>
        && tests == ForwardRead(h, b) + Index(vfifoSize + 1 + ForwardFrom(h).0 - i, 0) - Index(ForwardFrom(h).0, ForwardFrom(h).1)
        && All(FirstEdge(ForwardFrom(h), ForwardRead(h, b)), tests, true)
    {
      FirstPosition(i, p0);
      TapFits(i, p0);
      ghost var c;
      p, workBgn, c, b := BackOff(p0, workBgn0, i);
      e := Edge(0, 0, 0);
      assert HitAt(h) == workBgn0 && Advance(c, p) == ForwardFrom(h) && tests == ForwardRead(h, b);
      found, p, workBgn, workEnd, c := GoForward(i, p, workBgn, workBgn0, c, Lag(0, p0));
      if found {
        e := Edge(c, p, tests - 1);
        Fits(c, p, 0);
        p, workEnd, c := BackToPassing(p, workEnd, c, Lag(0, p0));
      }
    }

    /** The whole window: what the reads showed, where the search stands, and both ends.  The end recorded is the
        true one exactly when the first hit was not at delay 0 and phase 1; else it trails by one phase. */
    method FindWindow(dpp: int)
      returns (found: bool, p: int, d: int, workBgn: int, workEnd: int, ghost how: Outcome)
      requires Legal() && Safe() && 0 <= dpp <= delayMax
      modifies this
      ensures Safe() && Saw(old(tests), tests, dpp, how)
      ensures how.Window? ==>
        && workBgn == BeginOf(how.t.hit, how.t.back) && workEnd + Lag(how.t.hit.delay, how.t.hit.phase) == EndAt(how.t)
        && (workEnd == EndAt(how.t) <==> !(how.t.hit.delay == 0 && how.t.hit.phase == 1))
        && p == EndSetting(how.t).1 == phase && d == how.t.sweep
        && turn == old(turn) + Times(how.t.hit.delay, vfifoSize) + EndSetting(how.t).0
      ensures found <==> how.Window? && workBgn <= workEnd
      ensures found ==> 1 <= p <= phaseMax && 0 <= d <= delayMax + 1 && opaTap <= workBgn && 2 * workEnd < U32
    {
      var i;
      found, d, i, p, workBgn := FirstPhase(dpp);
      workEnd := workBgn;
      if !found {
        how := NoHit;
        return;
      }
      found, p, d, workBgn, workEnd, how := WindowFromHit(Hit(d, i, p, tests - 1), d, i, p, workBgn);
    }

    /** Both ends of the window, from the first hit on. */
    method WindowFromHit(ghost h: Hit, d0: int, i: int, p0: int, workBgn0: int)
      returns (found: bool, p: int, d: int, workBgn: int, workEnd: int, ghost how: Outcome)
      requires Legal() && Safe() && 0 <= d0 <= delayMax && 0 <= i < vfifoSize && 1 <= p0 <= phaseMax
      requires h == Hit(d0, i, p0, h.n) && tests == h.n + 1 && phase == p0 && workBgn0 == Taps(d0) + Coarse(i, p0)
      modifies this
      ensures Safe() && !how.NoHit?
      ensures !how.NoEdge? || (how.hit == h && NeverEnds(h, how.b, tests))
      ensures how.NoEdge? || (how.t.hit == h && IsTrace(how.t, tests))
      ensures how.Window? ==>
        && workBgn == BeginOf(h, how.t.back) && workEnd + Lag(d0, p0) == EndAt(how.t)
        && p == EndSetting(how.t).1 == phase && d == how.t.sweep && turn == old(turn) + EndSetting(how.t).0 - i
      ensures found <==> how.Window? && workBgn <= workEnd
      ensures found ==> 1 <= p <= phaseMax && 0 <= d <= delayMax + 1 && opaTap <= workBgn && 2 * workEnd < U32
    {
      ghost var t := Trace(h, Back(0, false), Edge(0, 0, 0), 0);
      ghost var base := Coarse(i, p0);
      p, workBgn, workEnd := p0, workBgn0, workBgn0;
      FirstPosition(i, p);
      Fits(i, p, delayMax + 1);
      TapsMono(d0, delayMax + 1);
      if d0 == 0 {
        ghost var b, e;
        found, p, workBgn, workEnd, b, e := PhaseWindow(h, i, p, workBgn);
        if !found {
          d := d0;
          how := NoEdge(h, b);
          return;
        }
        t := t.(back := b, edge := e);
        Fits(EndSetting(t).0, p, delayMax + 1);
        base := workEnd;
      }
      d, workEnd := DelayToFailing(d0, workEnd, base);
      TapsMono(if d == 0 then 0 else d - 1, delayMax + 1);
      t := t.(sweep := d);
      how := Window(t);
      found := workEnd >= workBgn;
    }

    /** Tracking count, then the centre of the window. */
    method CentreWindow(p0: int, d0: int, dpp: int, workBgn: int, workEnd: int)
      returns (found: bool, p: int, d: int, ghost centred: nat, ghost turns: nat, ghost rest: int)
      requires Legal() && Safe() && 1 <= p0 <= phaseMax && 0 <= d0 <= delayMax + 1 && 0 <= dpp <= delayMax
      requires 0 < workBgn <= workEnd && 2 * workEnd < U32
      modifies this
      ensures Safe() && phase == p && delay == d && 0 <= dtapsReg <= delayMax
      ensures (workBgn + workEnd) / 2 == Coarse(turns, 0) + rest && IsCentre(rest, p, d)
      ensures old(tests) <= centred <= tests
      ensures found ==> centred < tests && test(tests - 1) && All(centred, tests - 1, false)
      ensures !found ==> tests == centred + vfifoSize && All(centred, tests, false)
    {
      ghost var pass, measured;
      p, pass, measured := MeasurePhase(p0, d0, dpp);
      var workMid := Add32(workBgn, workEnd) / 2;
      p, d, turns, rest := Quantise(workMid);
      centred := tests;
      found := PushToPassing();
    }

    /** The smallest number of delay taps that covers a phase is one more than dpp. */
    ghost predicate IsDpp(dpp: int)
    {
      0 <= dpp < delayMax && Taps(dpp) < opaTap <= Taps(dpp + 1)
    }

    /** Reads a and b, from number n on, are the first two to fail. */
    ghost predicate TwoFails(n: nat, a: nat, b: nat)
    {
      n <= a < b < n + vfifoSize && !test(a) && !test(b) && All(n, a, true) && All(a + 1, b, true)
    }

    /** The search.  Whatever the read tests answer, it ends, every phase and delay written is legal and no
        position arithmetic wraps.  It succeeds exactly when a second read fails within one round of the VFIFO,
        the window search from there on sees a window that is not empty, and its centre passes in some turn. */
    method FindDqsEnPhase()
      returns (found: bool, p: int, d: int, ghost dpp: int, ghost stage: Stage, ghost fails: (nat, nat), ghost how: Outcome,
               ghost window: (int, int), ghost seen: nat, ghost centred: nat, ghost turns: nat, ghost rest: int)
      requires Legal() && Safe()
      modifies this
      ensures Safe() && IsDpp(dpp) && (found <==> stage == Done)
      // the two reads of step 1
      ensures stage == NeverFails ==>
        All(old(tests), fails.0, true) && All(fails.0 + 1, old(tests) + vfifoSize, true)
      ensures stage == NeverFails || TwoFails(old(tests), fails.0, fails.1)
      // the window that the reads from there on showed
      ensures stage == NeverFails || Recorded(fails.1 + 1, seen, dpp, how, window)
      ensures stage != NeverFails ==> (stage == NoWindow <==> how.Window? ==> window.0 > window.1)
      // its centre
      ensures stage == NeverFails || stage == NoWindow || Centred(window, seen, p, d, centred, turns, rest, found)
    {
      found, p, d, fails, how, window, seen := false, 0, 0, (0, 0), NoHit, (0, 0), 0;
      centred, turns, rest := 0, 0, 0;
      SetDelay(0);
      SetPhase(1);
      var dtapsPerPtap := DtapsPerPtap();
      dpp := dtapsPerPtap;
      ghost var firstFail;
      var failing;
      failing, firstFail := PushToFailing();
      fails := (firstFail, firstFail);
      if !failing {
        stage := NeverFails;
        return;
      }
      fails := (firstFail, tests - 1);
      found, p, d, stage, how, window, seen, centred, turns, rest := FromFailing(dtapsPerPtap);
    }

    /** What a search that starts at read n0 saw of the window, and what it recorded. */
    ghost predicate Recorded(n0: nat, seen: nat, dpp: int, how: Outcome, window: (int, int))
    {
      && Saw(n0, seen, dpp, how)
      && (how.Window? ==>
            && window.0 == BeginOf(how.t.hit, how.t.back)
            && window.1 + Lag(how.t.hit.delay, how.t.hit.phase) == EndAt(how.t)
            && (window.1 == EndAt(how.t) <==> !(how.t.hit.delay == 0 && how.t.hit.phase == 1)))
    }

    /** The centre of the window is programmed and, from read number `centred` on, passes in some turn or in none. */
    ghost predicate Centred(window: (int, int), seen: nat, p: int, d: int, centred: nat, turns: nat, rest: int, found: bool)
      reads this
    {
      && (window.0 + window.1) / 2 == Coarse(turns, 0) + rest && IsCentre(rest, p, d)
      && phase == p && delay == d && 0 <= dtapsReg <= delayMax && seen <= centred <= tests
      && if found then centred < tests && test(tests - 1) && All(centred, tests - 1, false)
         else tests == centred + vfifoSize && All(centred, tests, false)
    }

    /** Steps 2 to 6. */
    method FromFailing(dpp: int)
      returns (found: bool, p: int, d: int, ghost stage: Stage, ghost how: Outcome, ghost window: (int, int),
               ghost seen: nat, ghost centred: nat, ghost turns: nat, ghost rest: int)
      requires Legal() && Safe() && 0 <= dpp <= delayMax
      modifies this
      ensures Safe() && Recorded(old(tests), seen, dpp, how, window)
      ensures (found <==> stage == Done) && stage != NeverFails
      ensures stage == NoWindow <==> how.Window? ==> window.0 > window.1
      ensures stage == NoWindow || Centred(window, seen, p, d, centred, turns, rest, found)
    {
      var workBgn, workEnd;
      found, p, d, workBgn, workEnd, how := FindWindow(dpp);
      window, seen := (workBgn, workEnd), tests;
      centred, turns, rest := tests, 0, 0;
      if !found {
        stage := NoWindow;
        return;
      }
      found, p, d, centred, turns, rest := CentreWindow(p, d, dpp, workBgn, workEnd);
      stage := if found then Done else CentreFails;
    }
  }

  /** The constants of the Cyclone V build satisfy the relations the search relies on. */
  lemma CycloneVIsLegal(s: Search)
    requires s.phaseMax == 7 && s.delayMax == 31 && s.opaTap == 312 && s.enTap == 25 && s.vfifoSize == 16 && s.cycle == 2496
    ensures s.Legal()
  {
    TimesIsProduct(8, 312);
    TimesIsProduct(31, 25);
    TimesIsProduct(33, 25);
    TimesIsProduct(18, 2496);
  }

  /** Reads that fail twice, pass twice, fail twice and then pass. */
  predicate TwoTwoTwo(n: nat)
  {
    n == 2 || n == 3 || n >= 6
  }

  const LAG_TRACE := Trace(Hit(0, 0, 1, 2), Back(0, false), Edge(0, 4, 4), 0)

  /** What the search sees of them: a hit at once, in phase 1; the way forward starts at phase 3 and ends at 4, and
      the last sweep fails at once. */
  lemma LagTrace(s: Search, how: Outcome, seen: nat, dpp: int)
    requires s.phaseMax == 7 && s.delayMax == 31 && s.opaTap == 312 && s.enTap == 25 && s.vfifoSize == 16 && s.cycle == 2496
    requires forall n: nat :: s.test(n) == TwoTwoTwo(n)
    requires 0 <= dpp && s.Saw(2, seen, dpp, how)
    ensures how == Window(LAG_TRACE) && seen == 6 && s.IsHit(2, 0, LAG_TRACE.hit) && s.IsTrace(LAG_TRACE, 6)
  {
    var t := LAG_TRACE;
    CycloneVIsLegal(s);
    assert s.Advance(0, 1) == (0, 2) && s.Advance(0, 2) == (0, 3);
    assert s.ForwardFrom(t.hit) == (0, 3) && s.ForwardRead(t.hit, t.back) == 3;
    assert s.Index(0, 4) == 3 && s.Index(0, 3) == 2;
    assert s.IsEdge((0, 3), 3, t.edge);
    assert s.SweepRead(t) == 5 && s.IsTrace(t, 6);
    assert s.IsHit(2, dpp, t.hit);
    s.SawUnique(2, dpp, seen, how, 6, Window(t));
  }

  lemma LagWindow(s: Search, how: Outcome, window: (int, int), seen: nat, dpp: int)
    requires s.phaseMax == 7 && s.delayMax == 31 && s.opaTap == 312 && s.enTap == 25 && s.vfifoSize == 16 && s.cycle == 2496
    requires forall n: nat :: s.test(n) == TwoTwoTwo(n)
    requires 0 <= dpp && s.Recorded(2, seen, dpp, how, window)
    ensures how == Window(LAG_TRACE) && seen == 6 && s.IsHit(2, 0, LAG_TRACE.hit) && s.IsTrace(LAG_TRACE, 6)
    ensures window == (312, 624) && s.EndAt(LAG_TRACE) == 936
  {
    LagTrace(s, how, seen, dpp);
    assert s.Taps(0) == 0 && s.Coarse(0, 1) == 312 && s.HitAt(LAG_TRACE.hit) == 312;
    assert s.ForwardRead(LAG_TRACE.hit, LAG_TRACE.back) == 3;
    TimesIsProduct(3, 312);
    assert s.EndSetting(LAG_TRACE) == (0, 3) && s.Coarse(0, 3) == 936;
  }

  /** The lag occurs: the search succeeds, and the end it records is one phase before the true one. */
  method LagOccurs() returns (s: Search, found: bool, ghost window: (int, int))
    ensures fresh(s) && s.Legal() && (forall n: nat :: s.test(n) == TwoTwoTwo(n))
    ensures found && s.IsHit(2, 0, LAG_TRACE.hit) && s.IsTrace(LAG_TRACE, 6)
    ensures window == (312, 624) && s.EndAt(LAG_TRACE) == 936
  {
    s := new Search(7, 31, 312, 25, 16, 2496, TwoTwoTwo);
    CycloneVIsLegal(s);
    var p, d;
    ghost var dpp, stage, fails, how, seen, centred, turns, rest;
    found, p, d, dpp, stage, fails, how, window, seen, centred, turns, rest := s.FindDqsEnPhase();
    assert !s.test(0) && !s.test(1);
    assert stage != NeverFails && fails == (0, 1);
    LagWindow(s, how, window, seen, dpp);
    assert s.test(centred);
  }
}
