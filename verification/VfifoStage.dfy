/** The read stage with its retries: `rw_mgr_mem_calibrate_vfifo`. */
module VfifoStage {
  import opened CalGlobals
  import opened Words

  /** What centring one shadow register does: its verdict, the failures it reports and the strobe delay it leaves. */
  datatype Centring = Centring(ok: bool, log: seq<Report>, strobe: int)

  /** One attempt: output delay, output phase and strobe delay tried, the strobe delay its centring starts from, and
      how it went. */
  datatype Try = Try(d: int, p: int, strobe: int, orig: int, phaseFound: bool, ok: bool)

  /** Part of a run: its attempts and their reports, the guaranteed reads it used, the strobe delay it leaves in the
      register, and whether it ended in success. */
  datatype Leg = Leg(tries: seq<Try>, log: seq<Report>, rounds: nat, strobe: int, ok: bool) {
    function Then(next: Leg): Leg
    {
      Leg(tries + next.tries, log + next.log, rounds + next.rounds, next.strobe, next.ok)
    }
  }

  lemma ThenAssoc(a: Leg, b: Leg, c: Leg)
    ensures a.Then(b).Then(c) == a.Then(b.Then(c))
  {
    assert a.tries + b.tries + c.tries == a.tries + (b.tries + c.tries);
    assert a.log + b.log + c.log == a.log + (b.log + c.log);
  }

  lemma StartThen(a: Leg, b: Leg)
    ensures a.Then(Start(a.strobe)).Then(b) == a.Then(b) && (a.tries == [] && a.log == [] && a.rounds == 0 ==> a.Then(b) == b)
  {
    assert a.tries + [] == a.tries && a.log + [] == a.log;
    assert [] + b.tries == b.tries && [] + b.log == b.log;
  }

  function Start(strobe: int): Leg
  {
    Leg([], [], 0, strobe, false)
  }

  /** The constants and the outcomes. */
  datatype Setup = Setup(
    outDelayMax: int,                       // dtaps_per_ptap
    outPhaseMax: int,                       // IO_DQDQS_OUT_PHASE_MAX
    strobeMax: int,                         // IO_DQS_IN_DELAY_MAX
    skipShadow: seq<bool>,
    guaranteed: nat -> bool,                // outcome of the n-th guaranteed read
    finds: nat -> bool,                     // outcome of the n-th phase search
    centres: (nat, nat, int) -> Centring)   // of the n-th attempt, per shadow register and strobe delay
  {
    /** Centring leaves legal strobe delays. */
    ghost predicate Legal()
    {
      && 0 <= outDelayMax && 0 <= outPhaseMax && 0 <= strobeMax
      && forall n: nat, sr: nat, v: int :: 0 <= v <= strobeMax ==> 0 <= centres(n, sr, v).strobe <= strobeMax
    }

    /** Some shadow register takes part. */
    ghost predicate Active()
    {
      exists sr :: 0 <= sr < |skipShadow| && !skipShadow[sr]
    }

    /** The strobe delay register once v has been written for every shadow register that takes part. */
    ghost function Written(v: int, strobe: int): int
    {
      if Active() then v else strobe
    }

    /** Centring of the shadow registers from sr on, each from the original strobe delay. */
    ghost function CentreFrom(n: nat, orig: int, sr: nat, strobe: int): Centring
      decreases |skipShadow| - sr
    {
      if sr >= |skipShadow| then Centring(true, [], strobe)
      else if skipShadow[sr] then CentreFrom(n, orig, sr + 1, strobe)
      else
        var c := centres(n, sr, orig);
        var rest := CentreFrom(n, orig, sr + 1, c.strobe);
        Centring(c.ok && rest.ok, c.log + rest.log, rest.strobe)
    }

    /** Attempt n at strobe delay v. */
    ghost function Attempt(n: nat, d: int, p: int, v: int, orig: int, strobe: int): Leg
    {
      var c := if finds(n) then CentreFrom(n, orig, 0, Written(v, strobe)) else Centring(false, [], Written(v, strobe));
      Leg([Try(d, p, v, orig, finds(n), c.ok)], c.log, 0, c.strobe, c.ok)
    }

    /** Attempts at the strobe delays from v up, until one succeeds. */
    ghost function Round(n: nat, d: int, p: int, v: int, orig: int, strobe: int): Leg
      decreases strobeMax + 1 - v
    {
      if v > strobeMax then Start(strobe)
      else
        var a := Attempt(n, d, p, v, orig, strobe);
        if a.ok then a else a.Then(Round(n + 1, d, p, v + 1, orig, a.strobe))
    }

    /** One guaranteed read and, if it passes, the round that starts from what the register holds. */
    ghost function Guarded(n: nat, d: int, p: int, strobe: int): Leg
    {
      Leg([], [], 1, strobe, false).Then(Round(n, d, p, strobe, strobe, strobe))
    }

    /** The output phases from p up, until one succeeds or a guaranteed read fails. */
    ghost function Phases(n: nat, r: nat, d: int, p: int, strobe: int): Leg
      decreases outPhaseMax + 1 - p
    {
      if p > outPhaseMax then Start(strobe)
      else if !guaranteed(r) then Leg([], [], 1, strobe, false)
      else
        var a := Guarded(n, d, p, strobe);
        if a.ok then a else a.Then(Phases(n + |a.tries|, r + 1, d, p + 1, a.strobe))
    }

    /** Every second output delay from d up, until one succeeds. */
    ghost function Delays(n: nat, r: nat, d: int, strobe: int): Leg
      decreases outDelayMax + 1 - d
    {
      if d > outDelayMax then Start(strobe)
      else
        var a := Phases(n, r, d, 0, strobe);
        if a.ok then a else a.Then(Delays(n + |a.tries|, r + a.rounds, d + 2, a.strobe))
    }

    /** The whole run. */
    ghost function Run(strobe: int): Leg
    {
      Delays(0, 0, 0, strobe)
    }

    /** The substage a failure is blamed on: the last attempt's, or the guaranteed read if there was none. */
    ghost function Blame(tries: seq<Try>): Substage
    {
      if tries == [] then SubGuaranteedRead
      else if tries[|tries| - 1].phaseFound then SubVfifoCenter else SubDqsEnPhase
    }

    /** All that is reported: what the attempts report, then the failure of the stage. */
    ghost function Reports(leg: Leg, writeGroup: int): seq<Report>
    {
      leg.log + if leg.ok then [] else [Report(writeGroup, StageVfifo, Blame(leg.tries))]
    }

    // What runs are like.

    /** What attempt n reports: the reports of its centrings in order, if its phase search succeeds. */
    ghost function AttemptLog(n: nat, orig: int, sr: nat): seq<Report>
      decreases |skipShadow| - sr
    {
      if sr >= |skipShadow| then []
      else (if skipShadow[sr] then [] else centres(n, sr, orig).log) + AttemptLog(n, orig, sr + 1)
    }

    ghost function AttemptsLog(n: nat, tries: seq<Try>): seq<Report>
      decreases |tries|
    {
      if tries == [] then []
      else (if tries[0].phaseFound then AttemptLog(n, tries[0].orig, 0) else []) + AttemptsLog(n + 1, tries[1..])
    }

    lemma {:induction false} AttemptsLogJoin(n: nat, a: seq<Try>, b: seq<Try>)
      ensures AttemptsLog(n, a + b) == AttemptsLog(n, a) + AttemptsLog(n + |a|, b)
      decreases |a|
    {
      if a == [] {
        assert a + b == b;
      } else {
        assert (a + b)[1..] == a[1..] + b;
        AttemptsLogJoin(n + 1, a[1..], b);
      }
    }

    /** Attempt n succeeds: the phase is found and every shadow register that takes part is centred. */
    ghost predicate Succeeds(n: nat, orig: int)
    {
      finds(n) && forall sr: nat :: sr < |skipShadow| && !skipShadow[sr] ==> centres(n, sr, orig).ok
    }

    /** The attempts of a leg, numbered from n on, went as the oracles say, at legal settings; all but the last of a
        successful leg failed; and the leg reports what they report. */
    ghost predicate Faithful(n: nat, leg: Leg)
    {
      && leg.log == AttemptsLog(n, leg.tries) && 0 <= leg.strobe <= strobeMax
      && (leg.ok ==> leg.tries != [])
      && forall k: nat :: k < |leg.tries| ==> FaithfulTry(n + k, leg.tries[k], leg.ok && k == |leg.tries| - 1)
    }

    ghost predicate FaithfulTry(n: nat, t: Try, ok: bool)
    {
      && t.phaseFound == finds(n) && t.ok == Succeeds(n, t.orig) == ok
      && 0 <= t.d <= outDelayMax && t.d % 2 == 0 && 0 <= t.p <= outPhaseMax && 0 <= t.orig <= t.strobe <= strobeMax
    }

    lemma FaithfulJoin(n: nat, a: Leg, b: Leg)
      requires Faithful(n, a) && !a.ok && Faithful(n + |a.tries|, b)
      ensures Faithful(n, a.Then(b))
    {
      AttemptsLogJoin(n, a.tries, b.tries);
      var c := a.Then(b);
      forall k: nat | k < |c.tries|
        ensures FaithfulTry(n + k, c.tries[k], c.ok && k == |c.tries| - 1)
      {
        if k >= |a.tries| {
          assert c.tries[k] == b.tries[k - |a.tries|];
          assert FaithfulTry(n + |a.tries| + (k - |a.tries|), b.tries[k - |a.tries|], b.ok && k - |a.tries| == |b.tries| - 1);
        }
      }
    }

    lemma {:induction false} CentreFromFaithful(n: nat, orig: int, sr: nat, strobe: int)
      requires Legal() && 0 <= orig <= strobeMax && 0 <= strobe <= strobeMax
      ensures var c := CentreFrom(n, orig, sr, strobe);
        && (c.ok <==> forall q: nat :: sr <= q < |skipShadow| && !skipShadow[q] ==> centres(n, q, orig).ok)
        && c.log == AttemptLog(n, orig, sr) && 0 <= c.strobe <= strobeMax
      decreases |skipShadow| - sr
    {
      if sr < |skipShadow| {
        CentreFromFaithful(n, orig, sr + 1, if skipShadow[sr] then strobe else centres(n, sr, orig).strobe);
      }
    }

    lemma AttemptFaithful(n: nat, d: int, p: int, v: int, orig: int, strobe: int)
      requires Legal() && 0 <= orig <= v <= strobeMax && 0 <= strobe <= strobeMax
      requires 0 <= d <= outDelayMax && d % 2 == 0 && 0 <= p <= outPhaseMax
      ensures Faithful(n, Attempt(n, d, p, v, orig, strobe))
    {
      CentreFromFaithful(n, orig, 0, Written(v, strobe));
      var leg := Attempt(n, d, p, v, orig, strobe);
      assert leg.tries[1..] == [] && AttemptsLog(n + 1, leg.tries[1..]) == [];
    }

    lemma {:induction false} RoundFaithful(n: nat, d: int, p: int, v: int, orig: int, strobe: int)
      requires Legal() && 0 <= orig <= v <= strobeMax + 1 && 0 <= strobe <= strobeMax
      requires 0 <= d <= outDelayMax && d % 2 == 0 && 0 <= p <= outPhaseMax
      ensures Faithful(n, Round(n, d, p, v, orig, strobe))
      decreases strobeMax + 1 - v
    {
      if v <= strobeMax {
        var a := Attempt(n, d, p, v, orig, strobe);
        AttemptFaithful(n, d, p, v, orig, strobe);
        if !a.ok {
          RoundFaithful(n + 1, d, p, v + 1, orig, a.strobe);
          FaithfulJoin(n, a, Round(n + 1, d, p, v + 1, orig, a.strobe));
        }
      }
    }

    lemma GuardedFaithful(n: nat, d: int, p: int, strobe: int)
      requires Legal() && 0 <= strobe <= strobeMax && 0 <= d <= outDelayMax && d % 2 == 0 && 0 <= p <= outPhaseMax
      ensures Faithful(n, Guarded(n, d, p, strobe))
    {
      RoundFaithful(n, d, p, strobe, strobe, strobe);
      FaithfulJoin(n, Leg([], [], 1, strobe, false), Round(n, d, p, strobe, strobe, strobe));
    }

    lemma {:induction false} PhasesFaithful(n: nat, r: nat, d: int, p: int, strobe: int)
      requires Legal() && 0 <= strobe <= strobeMax && 0 <= d <= outDelayMax && d % 2 == 0 && 0 <= p
      ensures Faithful(n, Phases(n, r, d, p, strobe))
      decreases outPhaseMax + 1 - p
    {
      if p <= outPhaseMax && guaranteed(r) {
        var a := Guarded(n, d, p, strobe);
        GuardedFaithful(n, d, p, strobe);
        if !a.ok {
          PhasesFaithful(n + |a.tries|, r + 1, d, p + 1, a.strobe);
          FaithfulJoin(n, a, Phases(n + |a.tries|, r + 1, d, p + 1, a.strobe));
        }
      }
    }

    lemma {:induction false} DelaysFaithful(n: nat, r: nat, d: int, strobe: int)
      requires Legal() && 0 <= strobe <= strobeMax && 0 <= d && d % 2 == 0
      ensures Faithful(n, Delays(n, r, d, strobe))
      decreases outDelayMax + 1 - d
    {
      if d <= outDelayMax {
        var a := Phases(n, r, d, 0, strobe);
        PhasesFaithful(n, r, d, 0, strobe);
        if !a.ok {
          DelaysFaithful(n + |a.tries|, r + a.rounds, d + 2, a.strobe);
          FaithfulJoin(n, a, Delays(n + |a.tries|, r + a.rounds, d + 2, a.strobe));
        }
      }
    }

    /** The register holds a legal strobe delay throughout. */
    lemma PhasesLeaveLegal(n: nat, r: nat, d: int, strobe: int)
      requires Legal() && 0 <= strobe <= strobeMax && 0 <= d <= outDelayMax && d % 2 == 0
      ensures 0 <= Phases(n, r, d, 0, strobe).strobe <= strobeMax
    {
      PhasesFaithful(n, r, d, 0, strobe);
    }

    lemma GuardedLeavesLegal(n: nat, d: int, p: int, strobe: int)
      requires Legal() && 0 <= strobe <= strobeMax && 0 <= d <= outDelayMax && d % 2 == 0 && 0 <= p <= outPhaseMax
      ensures 0 <= Guarded(n, d, p, strobe).strobe <= strobeMax
    {
      GuardedFaithful(n, d, p, strobe);
    }

    // The strobe delays of the rounds.

    /** The last shadow register below k that takes part, or -1. */
    ghost function LastActive(k: nat): int
      requires k <= |skipShadow|
    {
      if k == 0 then -1 else if !skipShadow[k - 1] then k - 1 else LastActive(k - 1)
    }

    lemma {:induction false} LastActiveFound(k: nat)
      requires k <= |skipShadow|
      ensures -1 <= LastActive(k) < k && (LastActive(k) >= 0 ==> !skipShadow[LastActive(k)])
      ensures forall q :: LastActive(k) < q < k ==> skipShadow[q]
    {
      if k > 0 && skipShadow[k - 1] {
        LastActiveFound(k - 1);
      }
    }

    /** Centring leaves the strobe delay of the last shadow register that takes part. */
    lemma {:induction false} CentreFromLeaves(n: nat, orig: int, sr: nat, strobe: int)
      ensures LastActive(|skipShadow|) < |skipShadow|
      ensures CentreFrom(n, orig, sr, strobe).strobe
           == if LastActive(|skipShadow|) >= sr then centres(n, LastActive(|skipShadow|), orig).strobe else strobe
      decreases |skipShadow| - sr
    {
      LastActiveFound(|skipShadow|);
      if sr < |skipShadow| {
        CentreFromLeaves(n, orig, sr + 1, if skipShadow[sr] then strobe else centres(n, sr, orig).strobe);
      }
    }

    /** What attempt n leaves in the register: what centring leaves, or the delay tried if the phase was not found. */
    ghost function Left(n: nat, v: int, orig: int): int
    {
      if finds(n) && LastActive(|skipShadow|) >= 0 then centres(n, LastActive(|skipShadow|), orig).strobe else v
    }

    lemma AttemptLeaves(n: nat, d: int, p: int, v: int, orig: int, strobe: int)
      requires Active()
      ensures Attempt(n, d, p, v, orig, strobe).strobe == Left(n, v, orig)
    {
      LastActiveFound(|skipShadow|);
      CentreFromLeaves(n, orig, 0, Written(v, strobe));
    }

    /** A round tries the strobe delays from v up one by one.  A round that fails tries all of them, and what its last
        attempt leaves stays in the register. */
    lemma {:induction false} RoundShape(n: nat, d: int, p: int, v: int, orig: int, strobe: int)
      requires v <= strobeMax
      ensures var leg := Round(n, d, p, v, orig, strobe);
        && leg.rounds == 0 && 1 <= |leg.tries| <= strobeMax + 1 - v && (!leg.ok ==> |leg.tries| == strobeMax + 1 - v)
        && (forall k :: 0 <= k < |leg.tries| ==>
              leg.tries[k] == Try(d, p, v + k, orig, leg.tries[k].phaseFound, leg.tries[k].ok))
        && (!leg.ok && Active() ==> leg.strobe == Left(n + |leg.tries| - 1, strobeMax, orig))
      decreases strobeMax + 1 - v
    {
      var a := Attempt(n, d, p, v, orig, strobe);
      if Active() {
        AttemptLeaves(n, d, p, v, orig, strobe);
      }
      if !a.ok && v < strobeMax {
        RoundShape(n + 1, d, p, v + 1, orig, a.strobe);
      }
    }

    /** After a failing round the next one starts from the maximum if the last phase search failed, and otherwise from
        what centring left; if it fails too, it has tried a single strobe delay exactly when that is the maximum. */
    lemma NextRoundStart(n: nat, d: int, p: int, strobe: int, m: nat, d': int, p': int)
      requires Legal() && Active() && 0 <= strobe <= strobeMax && !Round(n, d, p, strobe, strobe, strobe).ok
      ensures var leg := Round(n, d, p, strobe, strobe, strobe);
        var last := n + |leg.tries| - 1;
        var next := Round(m, d', p', leg.strobe, leg.strobe, leg.strobe);
        && last >= n && 0 <= LastActive(|skipShadow|)
        && leg.strobe == (if finds(last) then centres(last, LastActive(|skipShadow|), strobe).strobe else strobeMax)
        && next.tries != [] && next.tries[0].strobe == leg.strobe
        && (leg.strobe == strobeMax ==> |next.tries| == 1)
        && (!next.ok ==> |next.tries| == strobeMax + 1 - leg.strobe && (|next.tries| == 1 <==> leg.strobe == strobeMax))
    {
      LastActiveFound(|skipShadow|);
      RoundShape(n, d, p, strobe, strobe, strobe);
      var leg := Round(n, d, p, strobe, strobe, strobe);
      RoundShape(m, d', p', leg.strobe, leg.strobe, leg.strobe);
    }

    // The guaranteed reads.

    /** How many of the k guaranteed reads from number r on pass. */
    ghost function Passed(r: nat, k: nat): nat
      decreases k
    {
      if k == 0 then 0 else (if guaranteed(r) then 1 else 0) + Passed(r + 1, k - 1)
    }

    lemma {:induction false} PassedJoin(r: nat, j: nat, k: nat)
      ensures Passed(r, j + k) == Passed(r, j) + Passed(r + j, k)
      decreases j
    {
      if j > 0 {
        PassedJoin(r + 1, j - 1, k);
      }
    }

    /** The phase search never succeeds. */
    ghost predicate NeverFinds()
    {
      forall n: nat :: !finds(n)
    }

    /** A leg has no attempt iff none of its guaranteed reads passed; and if the phase search never succeeds every round
        but the first tries a single strobe delay. */
    ghost predicate Counted(r: nat, strobe: int, leg: Leg)
    {
      && (leg.tries == [] <==> Passed(r, leg.rounds) == 0)
      && (leg.tries == [] ==> leg.strobe == strobe)
      && (NeverFinds() && Active() && leg.tries != [] ==>
            leg.strobe == strobeMax && |leg.tries| == strobeMax - strobe + Passed(r, leg.rounds))
    }

    lemma CountedJoin(r: nat, strobe: int, a: Leg, b: Leg)
      requires Counted(r, strobe, a) && Counted(r + a.rounds, a.strobe, b)
      ensures Counted(r, strobe, a.Then(b))
    {
      PassedJoin(r, a.rounds, b.rounds);
    }

    lemma GuardedCounted(n: nat, r: nat, d: int, p: int, strobe: int)
      requires Legal() && 0 <= strobe <= strobeMax && guaranteed(r)
      ensures Counted(r, strobe, Guarded(n, d, p, strobe)) && Guarded(n, d, p, strobe).rounds == 1
    {
      RoundShape(n, d, p, strobe, strobe, strobe);
      var leg := Round(n, d, p, strobe, strobe, strobe);
      assert Guarded(n, d, p, strobe).tries == leg.tries;
      assert Passed(r, 1) == 1 + Passed(r + 1, 0);
      if NeverFinds() && leg.ok {
        RoundNeverOk(n, d, p, strobe, strobe, strobe);
      }
    }

    lemma {:induction false} RoundNeverOk(n: nat, d: int, p: int, v: int, orig: int, strobe: int)
      requires NeverFinds()
      ensures !Round(n, d, p, v, orig, strobe).ok
      decreases strobeMax + 1 - v
    {
      if v <= strobeMax {
        RoundNeverOk(n + 1, d, p, v + 1, orig, Attempt(n, d, p, v, orig, strobe).strobe);
      }
    }

    lemma {:induction false} PhasesCounted(n: nat, r: nat, d: int, p: int, strobe: int)
      requires Legal() && 0 <= strobe <= strobeMax && 0 <= d <= outDelayMax && d % 2 == 0 && 0 <= p
      ensures Counted(r, strobe, Phases(n, r, d, p, strobe))
      decreases outPhaseMax + 1 - p
    {
      if p <= outPhaseMax && guaranteed(r) {
        var a := Guarded(n, d, p, strobe);
        GuardedCounted(n, r, d, p, strobe);
        if !a.ok {
          GuardedLeavesLegal(n, d, p, strobe);
          PhasesCounted(n + |a.tries|, r + 1, d, p + 1, a.strobe);
          CountedJoin(r, strobe, a, Phases(n + |a.tries|, r + 1, d, p + 1, a.strobe));
        }
      } else if p <= outPhaseMax {
        assert Passed(r, 1) == Passed(r + 1, 0);
      }
    }

    lemma {:induction false} DelaysCounted(n: nat, r: nat, d: int, strobe: int)
      requires Legal() && 0 <= strobe <= strobeMax && 0 <= d && d % 2 == 0
      ensures Counted(r, strobe, Delays(n, r, d, strobe))
      decreases outDelayMax + 1 - d
    {
      if d <= outDelayMax {
        var a := Phases(n, r, d, 0, strobe);
        PhasesCounted(n, r, d, 0, strobe);
        if !a.ok {
          PhasesLeaveLegal(n, r, d, strobe);
          DelaysCounted(n + |a.tries|, r + a.rounds, d + 2, a.strobe);
          CountedJoin(r, strobe, a, Delays(n + |a.tries|, r + a.rounds, d + 2, a.strobe));
        }
      }
    }

    // The steps of the loops.

    lemma NextPhase(whole: Leg, done: Leg, n: nat, r: nat, d: int, p: int, strobe: int, a: Leg, rest: Leg)
      requires p <= outPhaseMax && whole == done.Then(Phases(n, r, d, p, strobe))
      requires a == if guaranteed(r) then Guarded(n, d, p, strobe) else Leg([], [], 1, strobe, false)
      requires rest == if guaranteed(r) then Phases(n + |a.tries|, r + 1, d, p + 1, a.strobe) else Start(a.strobe)
      ensures whole == if a.ok || !guaranteed(r) then done.Then(a) else done.Then(a).Then(rest)
    {
      ThenAssoc(done, a, rest);
    }

    lemma NextDelay(whole: Leg, done: Leg, n: nat, r: nat, d: int, strobe: int, a: Leg, rest: Leg)
      requires d <= outDelayMax && whole == done.Then(Delays(n, r, d, strobe))
      requires a == Phases(n, r, d, 0, strobe) && rest == Delays(n + |a.tries|, r + a.rounds, d + 2, a.strobe)
      ensures whole == if a.ok then done.Then(a) else done.Then(a).Then(rest)
    {
      ThenAssoc(done, a, rest);
    }

    /** A success at output delay d is the last attempt. */
    lemma {:induction false} PhasesEndAt(n: nat, r: nat, d: int, p: int, strobe: int)
      ensures var leg := Phases(n, r, d, p, strobe); leg.ok ==> leg.tries != [] && leg.tries[|leg.tries| - 1].d == d
      decreases outPhaseMax + 1 - p
    {
      if p <= outPhaseMax && guaranteed(r) {
        var a := Guarded(n, d, p, strobe);
        if strobe <= strobeMax {
          RoundShape(n, d, p, strobe, strobe, strobe);
          assert a.tries == Round(n, d, p, strobe, strobe, strobe).tries;
        }
        if !a.ok {
          PhasesEndAt(n + |a.tries|, r + 1, d, p + 1, a.strobe);
        }
      }
    }

    /** The last attempt was at output delay d. */
    ghost predicate LastAt(tries: seq<Try>, d: int)
    {
      tries != [] && tries[|tries| - 1].d == d
    }

    lemma StepEndsAt(done: Leg, n: nat, r: nat, d: int, strobe: int)
      ensures var leg := Phases(n, r, d, 0, strobe);
        !leg.ok || LastAt(done.Then(leg).tries, d)
    {
      PhasesEndAt(n, r, d, 0, strobe);
    }

    // The order of the attempts.

    /** Within a round the strobe delay goes up by one; a new round starts from its original strobe delay, at a later
        output phase of the same output delay or at a later output delay. */
    ghost predicate Follows(t: Try, next: Try)
    {
      || (next.d == t.d && next.p == t.p && next.orig == t.orig && next.strobe == t.strobe + 1)
      || (next.strobe == next.orig && (next.d > t.d || (next.d == t.d && next.p > t.p)))
    }

    /** Attempts in order, from the start of a round at output delay d0 and phase p0 or later. */
    ghost predicate Ordered(tries: seq<Try>, d0: int, p0: int)
    {
      && (forall k: nat :: 0 < k < |tries| ==> Follows(tries[k - 1], tries[k]))
      && (tries != [] ==> tries[0].strobe == tries[0].orig && (tries[0].d > d0 || (tries[0].d == d0 && tries[0].p >= p0)))
    }

    /** The last attempt lies before output delay d, or at d before phase p. */
    ghost predicate EndsBefore(tries: seq<Try>, d: int, p: int)
    {
      tries != [] ==> var t := tries[|tries| - 1]; t.d < d || (t.d == d && t.p < p)
    }

    lemma OrderedJoin(a: seq<Try>, b: seq<Try>, d0: int, p0: int, d: int, p: int)
      requires (d < d0 || Ordered(a, d0, p0)) && EndsBefore(a, d, p) && (d < d0 || Ordered(b, d, p))
      requires d > d0 || (d == d0 && p >= p0)
      ensures d < d0 || Ordered(a + b, d0, p0)
    {
      var c := a + b;
      forall k: nat | 0 < k < |c|
        ensures Follows(c[k - 1], c[k])
      {
        if k < |a| {
          assert Follows(a[k - 1], a[k]);
        } else if k > |a| {
          assert Follows(b[k - |a| - 1], b[k - |a|]);
        }
      }
    }

    lemma LastOfJoin(a: seq<Try>, b: seq<Try>, d: int, p: int, e: int, q: int)
      requires EndsBefore(a, d, p) && EndsBefore(b, e, q) && (d < e || (d == e && p <= q))
      ensures EndsBefore(a + b, e, q)
    {
    }

    lemma RoundOrdered(n: nat, d: int, p: int, strobe: int)
      requires strobe <= strobeMax
      ensures var tries := Guarded(n, d, p, strobe).tries;
        tries != [] && (strobe > strobeMax || Ordered(tries, d, p)) && EndsBefore(tries, d, p + 1)
    {
      RoundShape(n, d, p, strobe, strobe, strobe);
      var tries := Guarded(n, d, p, strobe).tries;
      assert tries == Round(n, d, p, strobe, strobe, strobe).tries;
      forall k: nat | 0 < k < |tries|
        ensures Follows(tries[k - 1], tries[k])
      {
      }
    }

    /** `whole` is this leg and then, unless it succeeded, the rest. */
    ghost predicate Made(whole: Leg, a: Leg, rest: Leg)
    {
      whole.tries == (if a.ok then a.tries else a.tries + rest.tries) && whole.ok == (a.ok || rest.ok)
    }

    lemma PhasesSplit(n: nat, r: nat, d: int, p: int, strobe: int, a: Leg, rest: Leg) returns (whole: Leg)
      requires p <= outPhaseMax && guaranteed(r)
      ensures whole == Phases(n, r, d, p, strobe)
      ensures a == Guarded(n, d, p, strobe) && rest == Phases(n + |a.tries|, r + 1, d, p + 1, a.strobe) ==> Made(whole, a, rest)
    {
      whole := Phases(n, r, d, p, strobe);
    }

    lemma DelaysSplit(n: nat, r: nat, d: int, strobe: int, a: Leg, rest: Leg) returns (whole: Leg)
      requires d <= outDelayMax
      ensures whole == Delays(n, r, d, strobe)
      ensures a == Phases(n, r, d, 0, strobe) && rest == Delays(n + |a.tries|, r + a.rounds, d + 2, a.strobe)
        ==> Made(whole, a, rest)
    {
      whole := Delays(n, r, d, strobe);
    }

    lemma OrderedRound(n: nat, d: int, p: int, strobe: int) returns (a: Leg)
      requires (d < 0 || Legal()) && 0 <= strobe <= strobeMax && 0 <= d <= outDelayMax && d % 2 == 0 && 0 <= p <= outPhaseMax
      ensures a == Guarded(n, d, p, strobe) && 0 <= a.strobe <= strobeMax
      ensures d < 0 || Ordered(a.tries, d, p)
      ensures d < 0 || EndsBefore(a.tries, d, p + 1)
    {
      a := Guarded(n, d, p, strobe);
      RoundOrdered(n, d, p, strobe);
      GuardedLeavesLegal(n, d, p, strobe);
    }

    lemma {:induction false} PhasesOrdered(n: nat, r: nat, d: int, p: int, strobe: int) returns (leg: Leg)
      requires (d < 0 || Legal()) && 0 <= strobe <= strobeMax && 0 <= d <= outDelayMax && d % 2 == 0 && 0 <= p
      ensures leg == Phases(n, r, d, p, strobe)
      ensures d < 0 || Ordered(leg.tries, d, p)
      ensures d < 0 || EndsBefore(leg.tries, d + 1, 0)
      decreases outPhaseMax + 1 - p
    {
      if p > outPhaseMax || !guaranteed(r) {
        leg := Phases(n, r, d, p, strobe);
      } else {
        var a := OrderedRound(n, d, p, strobe);
        var rest := PhasesOrdered(n + |a.tries|, r + 1, d, p + 1, a.strobe);
        leg := PhasesSplit(n, r, d, p, strobe, a, rest);
        PhasesOrderedStep(leg, a, rest, d, p);
      }
    }

    lemma PhasesOrderedStep(leg: Leg, a: Leg, rest: Leg, d: int, p: int)
      requires (d < 0 || Made(leg, a, rest)) && 0 <= d && (d < 0 || Ordered(a.tries, d, p)) && (d < 0 || EndsBefore(a.tries, d, p + 1))
      requires d < 0 || Ordered(rest.tries, d, p + 1)
      requires d < 0 || EndsBefore(rest.tries, d + 1, 0)
      ensures d < 0 || Ordered(leg.tries, d, p)
      ensures d < 0 || EndsBefore(leg.tries, d + 1, 0)
    {
      OrderedJoin(a.tries, rest.tries, d, p, d, p + 1);
      LastOfJoin(a.tries, rest.tries, d, p + 1, d + 1, 0);
    }

    lemma OrderedLeg(n: nat, r: nat, d: int, strobe: int) returns (a: Leg)
      requires (d < 0 || Legal()) && 0 <= strobe <= strobeMax && 0 <= d <= outDelayMax && d % 2 == 0
      ensures a == Phases(n, r, d, 0, strobe) && 0 <= a.strobe <= strobeMax
      ensures d < 0 || Ordered(a.tries, d, 0)
      ensures d < 0 || EndsBefore(a.tries, d + 1, 0)
    {
      a := PhasesOrdered(n, r, d, 0, strobe);
      PhasesLeaveLegal(n, r, d, strobe);
    }

    lemma {:induction false} DelaysOrdered(n: nat, r: nat, d: int, strobe: int) returns (leg: Leg)
      requires (d < 0 || Legal()) && 0 <= strobe <= strobeMax && 0 <= d && d % 2 == 0
      ensures leg == Delays(n, r, d, strobe)
      ensures d < 0 || Ordered(leg.tries, d, 0)
      decreases outDelayMax + 1 - d
    {
      if d > outDelayMax {
        leg := Delays(n, r, d, strobe);
      } else {
        var a := OrderedLeg(n, r, d, strobe);
        var rest := DelaysOrdered(n + |a.tries|, r + a.rounds, d + 2, a.strobe);
        leg := DelaysSplit(n, r, d, strobe, a, rest);
        DelaysOrderedStep(leg, a, rest, d);
      }
    }

    lemma DelaysOrderedStep(leg: Leg, a: Leg, rest: Leg, d: int)
      requires (d < 0 || Made(leg, a, rest)) && 0 <= d && (d < 0 || Ordered(a.tries, d, 0)) && (d < 0 || EndsBefore(a.tries, d + 1, 0))
      requires d < 0 || Ordered(rest.tries, d + 2, 0)
      ensures d < 0 || Ordered(leg.tries, d, 0)
    {
      OrderedLater(rest.tries, d + 2, d + 1);
      OrderedJoin(a.tries, rest.tries, d, 0, d + 1, 0);
    }

    lemma OrderedLater(tries: seq<Try>, d: int, e: int)
      requires e <= d && (d < e || Ordered(tries, d, 0))
      ensures d < e || Ordered(tries, e, 0)
    {
    }

    /** The attempts of a run are ordered by output delay, output phase and strobe delay. */
    lemma RunIsOrdered(strobe: int)
      requires Legal() && 0 <= strobe <= strobeMax
      ensures Ordered(Run(strobe).tries, 0, 0)
    {
      var leg := DelaysOrdered(0, 0, 0, strobe);
    }

    /** Output delay d and phase p were tried. */
    ghost predicate Tried(tries: seq<Try>, d: int, p: int)
    {
      exists k: nat :: k < |tries| && tries[k].d == d && tries[k].p == p
    }

    lemma TriedJoin(a: seq<Try>, b: seq<Try>, d: int, p: int)
      requires Tried(a, d, p) || Tried(b, d, p)
      ensures !(Tried(a, d, p) || Tried(b, d, p)) || Tried(a + b, d, p)
    {
      if Tried(a, d, p) {
        var k: nat :| k < |a| && a[k].d == d && a[k].p == p;
        assert (a + b)[k] == a[k];
      } else {
        var k: nat :| k < |b| && b[k].d == d && b[k].p == p;
        assert (a + b)[|a| + k] == b[k];
      }
    }

    ghost predicate AlwaysGuaranteed()
    {
      forall r: nat :: guaranteed(r)
    }

    lemma CompleteRound(n: nat, d: int, p: int, strobe: int) returns (a: Leg)
      requires (d < 0 || Legal()) && 0 <= strobe <= strobeMax && 0 <= d <= outDelayMax && d % 2 == 0 && 0 <= p <= outPhaseMax
      ensures a == Guarded(n, d, p, strobe) && 0 <= a.strobe <= strobeMax
      ensures a.ok || Tried(a.tries, d, p)
    {
      a := Guarded(n, d, p, strobe);
      RoundShape(n, d, p, strobe, strobe, strobe);
      GuardedLeavesLegal(n, d, p, strobe);
      assert a.tries == Round(n, d, p, strobe, strobe, strobe).tries;
      assert a.tries[0].d == d && a.tries[0].p == p;
    }

    lemma CompleteStep(leg: Leg, a: Leg, rest: Leg, d: int, q: int)
      requires 0 <= q && (q < 0 || Made(leg, a, rest)) && (a.ok || Tried(a.tries, d, q) || rest.ok || Tried(rest.tries, d, q))
      ensures leg.ok || Tried(leg.tries, d, q)
    {
      if !leg.ok {
        TriedJoin(a.tries, rest.tries, d, q);
      }
    }

    lemma {:induction false} PhasesComplete(n: nat, r: nat, d: int, p: int, strobe: int, q: int) returns (leg: Leg)
      requires (d < 0 || (Legal() && AlwaysGuaranteed())) && 0 <= strobe <= strobeMax && 0 <= d <= outDelayMax && d % 2 == 0
      requires 0 <= p <= q <= outPhaseMax
      ensures leg == Phases(n, r, d, p, strobe)
      ensures leg.ok || Tried(leg.tries, d, q)
      decreases q - p
    {
      assert guaranteed(r);
      var a := CompleteRound(n, d, p, strobe);
      var rest := Phases(n + |a.tries|, r + 1, d, p + 1, a.strobe);
      if p < q {
        rest := PhasesComplete(n + |a.tries|, r + 1, d, p + 1, a.strobe, q);
      }
      leg := PhasesSplit(n, r, d, p, strobe, a, rest);
      CompleteStep(leg, a, rest, d, q);
    }

    lemma CompleteLeg(n: nat, r: nat, d: int, strobe: int, q: int) returns (a: Leg)
      requires (d < 0 || (Legal() && AlwaysGuaranteed())) && 0 <= strobe <= strobeMax && 0 <= d <= outDelayMax && d % 2 == 0
      requires 0 <= q <= outPhaseMax
      ensures a == Phases(n, r, d, 0, strobe) && 0 <= a.strobe <= strobeMax
      ensures a.ok || Tried(a.tries, d, q)
    {
      a := PhasesComplete(n, r, d, 0, strobe, q);
      PhasesLeaveLegal(n, r, d, strobe);
    }

    lemma {:induction false} DelaysComplete(n: nat, r: nat, d: int, strobe: int, m: nat, e: int, q: int) returns (leg: Leg)
      requires (d < 0 || (Legal() && AlwaysGuaranteed())) && 0 <= strobe <= strobeMax
      requires 0 <= d && d % 2 == 0 && e == d + 2 * m <= outDelayMax && 0 <= q <= outPhaseMax
      ensures leg == Delays(n, r, d, strobe)
      ensures leg.ok || Tried(leg.tries, e, q)
      decreases m
    {
      var a := CompleteLeg(n, r, d, strobe, q);
      var rest := Delays(n + |a.tries|, r + a.rounds, d + 2, a.strobe);
      if m > 0 {
        rest := DelaysComplete(n + |a.tries|, r + a.rounds, d + 2, a.strobe, m - 1, e, q);
      }
      leg := DelaysSplit(n, r, d, strobe, a, rest);
      CompleteStep(leg, a, rest, e, q);
    }

    /** A run that fails although every guaranteed read passes has tried every second output delay at every phase. */
    lemma FailureTriedAll(strobe: int, d: int, p: int)
      requires Legal() && AlwaysGuaranteed() && 0 <= strobe <= strobeMax && !Run(strobe).ok
      requires 0 <= d <= outDelayMax && d % 2 == 0 && 0 <= p <= outPhaseMax
      ensures Tried(Run(strobe).tries, d, p)
    {
      var leg := DelaysComplete(0, 0, 0, strobe, d / 2, d, p);
    }

    /** If no guaranteed read passes, one is made per output delay and nothing is attempted. */
    lemma {:induction false} NoGuaranteedRead(n: nat, r: nat, d: int, strobe: int)
      requires 0 <= outPhaseMax && 0 <= d <= outDelayMax + 2 && d % 2 == 0 && forall k: nat :: !guaranteed(k)
      ensures var leg := Delays(n, r, d, strobe);
        leg.tries == [] && leg.strobe == strobe && !leg.ok && leg.rounds == if d > outDelayMax then 0 else (outDelayMax - d) / 2 + 1
      decreases outDelayMax + 2 - d
    {
      if d <= outDelayMax {
        NoGuaranteedRead(n, r + 1, d + 2, strobe);
        assert Phases(n, r, d, 0, strobe) == Leg([], [], 1, strobe, false);
      }
    }

    // What a run means.

    /** A run succeeds iff its last attempt does, at legal settings throughout, and reports what its attempts report;
        it makes no attempt iff every guaranteed read it does fails; and if the phase search never succeeds, every
        round but the first tries the maximum only. */
    lemma RunMeans(strobe: int)
      requires Legal() && 0 <= strobe <= strobeMax
      ensures Faithful(0, Run(strobe)) && Counted(0, strobe, Run(strobe))
      ensures var leg := Run(strobe); leg.ok <==> leg.tries != [] && leg.tries[|leg.tries| - 1].ok
    {
      DelaysFaithful(0, 0, 0, strobe);
      DelaysCounted(0, 0, 0, strobe);
      var leg := Run(strobe);
      assert leg.tries != [] ==> FaithfulTry(0 + (|leg.tries| - 1), leg.tries[|leg.tries| - 1], leg.ok);
    }

    /** No centring from register sr on reports anything in attempt n. */
    ghost predicate Silent(n: nat, orig: int, sr: nat)
    {
      forall q: nat :: sr <= q < |skipShadow| && !skipShadow[q] ==> centres(n, q, orig).log == []
    }

    lemma {:induction false} SilentIff(n: nat, orig: int, sr: nat)
      ensures AttemptLog(n, orig, sr) == [] <==> Silent(n, orig, sr)
      decreases |skipShadow| - sr
    {
      if sr < |skipShadow| {
        SilentIff(n, orig, sr + 1);
      }
    }

    /** Attempt n reports nothing. */
    ghost predicate SilentTry(n: nat, t: Try)
    {
      t.phaseFound ==> Silent(n, t.orig, 0)
    }

    /** No attempt reports anything. */
    ghost predicate AllSilent(n: nat, tries: seq<Try>)
    {
      forall k: nat :: k < |tries| ==> SilentTry(n + k, tries[k])
    }

    lemma AllSilentSplit(n: nat, tries: seq<Try>)
      requires tries != []
      ensures AllSilent(n, tries) <==> SilentTry(n, tries[0]) && AllSilent(n + 1, tries[1..])
    {
      var rest := tries[1..];
      if AllSilent(n, tries) {
        assert SilentTry(n + 0, tries[0]);
        forall k: nat | k < |rest|
          ensures SilentTry(n + 1 + k, rest[k])
        {
          assert SilentTry(n + (k + 1), tries[k + 1]);
        }
      }
      if SilentTry(n, tries[0]) && AllSilent(n + 1, rest) {
        forall k: nat | k < |tries|
          ensures SilentTry(n + k, tries[k])
        {
          if k > 0 {
            assert SilentTry(n + 1 + (k - 1), rest[k - 1]);
          }
        }
      }
    }

    lemma {:induction false} AllSilentIff(n: nat, tries: seq<Try>)
      ensures AttemptsLog(n, tries) == [] <==> AllSilent(n, tries)
      decreases |tries|
    {
      if tries != [] {
        SilentIff(n, tries[0].orig, 0);
        AllSilentIff(n + 1, tries[1..]);
        AllSilentSplit(n, tries);
      }
    }

    /** A stage that passes reports nothing exactly when no centring of its attempts reports anything: a failed attempt
        that reports leaves its failure behind although a later attempt passes. */
    lemma PassReportsNothingIff(strobe: int, writeGroup: int)
      requires Legal() && 0 <= strobe <= strobeMax && Run(strobe).ok
      ensures Reports(Run(strobe), writeGroup) == [] <==> AllSilent(0, Run(strobe).tries)
    {
      RunMeans(strobe);
      AllSilentIff(0, Run(strobe).tries);
    }

    /** Every report names a stage. */
    ghost predicate Named(log: seq<Report>)
    {
      forall k :: 0 <= k < |log| ==> log[k].stage != StageNil
    }

    ghost predicate CentresNamed()
    {
      forall n: nat, sr: nat, v: int :: Named(centres(n, sr, v).log)
    }

    lemma {:induction false} AttemptNamed(n: nat, orig: int, sr: nat)
      requires CentresNamed()
      ensures Named(AttemptLog(n, orig, sr))
      decreases |skipShadow| - sr
    {
      if sr < |skipShadow| {
        assert Named(centres(n, sr, orig).log);
        AttemptNamed(n, orig, sr + 1);
      }
    }

    lemma {:induction false} AttemptsNamed(n: nat, tries: seq<Try>)
      requires CentresNamed()
      ensures Named(AttemptsLog(n, tries))
      decreases |tries|
    {
      if tries != [] {
        AttemptNamed(n, tries[0].orig, 0);
        AttemptsNamed(n + 1, tries[1..]);
      }
    }

    /** If centring reports only failures of a stage, so does the whole stage, and it reports one if it fails. */
    lemma ReportsNamed(strobe: int, writeGroup: int)
      requires Legal() && 0 <= strobe <= strobeMax && CentresNamed()
      ensures Named(Reports(Run(strobe), writeGroup))
      ensures !Run(strobe).ok ==> Reports(Run(strobe), writeGroup) != []
    {
      RunMeans(strobe);
      AttemptsNamed(0, Run(strobe).tries);
    }

    /** A stage that fails reports its failure last, whatever the attempts have reported; it is blamed on the guaranteed
        read if none passed, else on the phase search of the last attempt if that failed, else on centring. */
    lemma FailureIsReported(strobe: int, writeGroup: int)
      requires Legal() && 0 <= strobe <= strobeMax && !Run(strobe).ok
      ensures var log, leg := Reports(Run(strobe), writeGroup), Run(strobe);
        && log != [] && log[..|log| - 1] == leg.log
        && log[|log| - 1] == Report(writeGroup, StageVfifo,
             if Passed(0, leg.rounds) == 0 then SubGuaranteedRead
             else if leg.tries != [] && !finds(|leg.tries| - 1) then SubDqsEnPhase
             else SubVfifoCenter)
        && (Passed(0, leg.rounds) == 0 <==> leg.tries == [])
    {
      RunMeans(strobe);
      var leg := Run(strobe);
      if leg.tries != [] {
        assert FaithfulTry(0 + (|leg.tries| - 1), leg.tries[|leg.tries| - 1], false);
      }
    }
  }

  /** The stage in place. */
  class Stage {
    const setup: Setup
    const gbl: Gbl
    var strobe: int          // the strobe delay register of the group
    var attempts: nat
    var rounds: nat          // guaranteed reads so far
    var zeroed: bool         // the output delay chains were put back to zero at the end
    ghost var tries: seq<Try>
    ghost var log: seq<Report>

    constructor (setup: Setup, gbl: Gbl, strobe: int)
      ensures this.setup == setup && this.gbl == gbl && this.strobe == strobe && attempts == rounds == 0
      ensures tries == [] && log == [] && !zeroed
    {
      this.setup, this.gbl, this.strobe := setup, gbl, strobe;
      attempts, rounds, zeroed, tries, log := 0, 0, false, [], [];
    }

    /** The run so far, and the failures it reported on record since `before`. */
    ghost predicate At(leg: Leg, before: Report)
      reads this, gbl
    {
      && leg == Leg(tries, log, rounds, strobe, leg.ok) && attempts == |tries|
      && gbl.error == CalGlobals.Recorded(before, log)
    }

    method Fail(r: Report, ghost before: Report)
      requires gbl.error == Recorded(before, log)
      modifies this`log, gbl`error
      ensures gbl.error == Recorded(before, log) && log == old(log) + [r]
    {
      RecordedAppend(before, log, [r]);
      gbl.SetFailingGroupStage(r.group, r.stage, r.substage);
      log := log + [r];
    }

    method FailAll(rs: seq<Report>, ghost before: Report)
      requires gbl.error == Recorded(before, log)
      modifies this`log, gbl`error
      ensures gbl.error == Recorded(before, log) && log == old(log) + rs
    {
      for k := 0 to |rs|
        invariant gbl.error == Recorded(before, log) && log == old(log) + rs[..k]
      {
        Fail(rs[k], before);
      }
    }

    /** Per-bit deskew of every shadow register that takes part, each from the original strobe delay. */
    method CentreAll(n: nat, orig: int, ghost before: Report) returns (ok: bool)
      requires gbl.error == Recorded(before, log)
      modifies this`strobe, this`log, gbl`error
      ensures gbl.error == Recorded(before, log)
      ensures var c := setup.CentreFrom(n, orig, 0, old(strobe));
        ok == c.ok && strobe == c.strobe && log == old(log) + c.log
    {
      ok := true;
      var sr := 0;
      ghost var all := setup.CentreFrom(n, orig, 0, strobe);
      while sr < |setup.skipShadow|
        invariant 0 <= sr <= |setup.skipShadow| && gbl.error == Recorded(before, log)
        invariant var rest := setup.CentreFrom(n, orig, sr, strobe);
          all.ok == (ok && rest.ok) && all.strobe == rest.strobe && old(log) + all.log == log + rest.log
      {
        if !setup.skipShadow[sr] {
          strobe := orig;
          var c := setup.centres(n, sr, strobe);
          ghost var was := log;
          FailAll(c.log, before);
          strobe := c.strobe;
          if !c.ok {
            ok := false;
          }
          Reassociate(was, c.log, setup.CentreFrom(n, orig, sr + 1, strobe).log);
        }
        sr := sr + 1;
      }
    }

    lemma Reassociate(a: seq<Report>, b: seq<Report>, c: seq<Report>)
      ensures a + (b + c) == a + b + c
    {
    }

    /** Write the strobe delay for every shadow register that takes part. */
    method SetStrobe(v: int)
      modifies this`strobe
      ensures strobe == setup.Written(v, old(strobe))
    {
      var sr := 0;
      while sr < |setup.skipShadow|
        invariant 0 <= sr <= |setup.skipShadow|
        invariant strobe == if exists q :: 0 <= q < sr && !setup.skipShadow[q] then v else old(strobe)
      {
        if !setup.skipShadow[sr] {
          strobe := v;
        }
        sr := sr + 1;
      }
    }

    method Attempt(d: int, p: int, v: int, orig: int, ghost done: Leg, ghost before: Report) returns (ok: bool, sub: Substage)
      requires At(done, before)
      modifies this`strobe, this`attempts, this`tries, this`log, gbl`error
      ensures var a := setup.Attempt(old(attempts), d, p, v, orig, old(strobe));
        At(done.Then(a), before) && ok == a.ok && (!ok ==> sub == setup.Blame(tries))
    {
      SetStrobe(v);
      sub := SubDqsEnPhase;
      ok := setup.finds(attempts);
      if ok {
        ok := CentreAll(attempts, orig, before);
        sub := SubVfifoCenter;
      }
      tries := tries + [Try(d, p, v, orig, setup.finds(attempts), ok)];
      attempts := attempts + 1;
    }

    /** The strobe delays from the one in the register up to the maximum, until an attempt succeeds. */
    method Round(d: int, p: int, sub0: Substage, ghost done: Leg, ghost before: Report) returns (ok: bool, sub: Substage)
      requires At(done, before) && sub0 == setup.Blame(tries)
      modifies this`strobe, this`attempts, this`tries, this`log, gbl`error
      ensures var leg := setup.Round(old(attempts), d, p, old(strobe), old(strobe), old(strobe));
        At(done.Then(leg), before) && ok == leg.ok && (!ok ==> sub == setup.Blame(tries))
    {
      var orig := strobe;
      var v := orig;
      ghost var all, cur := done.Then(setup.Round(attempts, d, p, v, orig, strobe)), done.Then(Start(strobe));
      ok, sub := false, sub0;
      while v <= setup.strobeMax && !ok
        invariant At(cur, before) && cur.ok == ok && (!ok ==> sub == setup.Blame(tries))
        invariant all == if ok then cur else cur.Then(setup.Round(attempts, d, p, v, orig, strobe))
        decreases setup.strobeMax + 1 - v
      {
        ghost var a := setup.Attempt(attempts, d, p, v, orig, strobe);
        ThenAssoc(cur, a, setup.Round(attempts + 1, d, p, v + 1, orig, a.strobe));
        ok, sub := Attempt(d, p, v, orig, cur, before);
        cur := cur.Then(a);
        v := v + 1;
      }
    }

    /** The guaranteed read of one output phase and, if it passes, the round. */
    method Guarded(d: int, p: int, sub0: Substage, ghost done: Leg, ghost before: Report)
      returns (pass: bool, ok: bool, sub: Substage)
      requires At(done, before) && sub0 == setup.Blame(tries)
      modifies this`strobe, this`attempts, this`tries, this`log, this`rounds, gbl`error
      ensures pass == setup.guaranteed(old(rounds)) && rounds == old(rounds) + 1
      ensures var leg := if pass then setup.Guarded(old(attempts), d, p, old(strobe)) else Leg([], [], 1, old(strobe), false);
        At(done.Then(leg), before) && ok == leg.ok && (!ok ==> sub == setup.Blame(tries))
    {
      pass := setup.guaranteed(rounds);
      rounds := rounds + 1;
      ghost var read := Leg([], [], 1, strobe, false);
      ok, sub := false, sub0;
      if pass {
        ThenAssoc(done, read, setup.Round(attempts, d, p, strobe, strobe, strobe));
        ok, sub := Round(d, p, sub, done.Then(read), before);
      }
    }

    /** What is left of a loop: the legs done so far, then the rest, make up the whole. */
    ghost predicate Split(whole: Leg, cur: Leg, rest: Leg, ok: bool, sub: Substage, before: Report)
      reads this, gbl
    {
      At(cur, before) && cur.ok == ok && (!ok ==> sub == setup.Blame(tries)) && whole == if ok then cur else cur.Then(rest)
    }

    /** One output phase of the loop. */
    method PhaseStep(d: int, p: int, sub0: Substage, ghost cur0: Leg, ghost whole: Leg, ghost before: Report)
      returns (pass: bool, ok: bool, sub: Substage, ghost cur: Leg, ghost rest: Leg)
      requires p <= setup.outPhaseMax
      requires Split(whole, cur0, setup.Phases(attempts, rounds, d, p, strobe), false, sub0, before)
      modifies this`strobe, this`attempts, this`tries, this`log, this`rounds, gbl`error
      ensures Split(whole, cur, rest, ok, sub, before) && (!pass ==> !ok && cur == whole)
      ensures pass && !ok ==> rest == setup.Phases(attempts, rounds, d, p + 1, strobe)
    {
      ghost var a := if setup.guaranteed(rounds) then setup.Guarded(attempts, d, p, strobe) else Leg([], [], 1, strobe, false);
      ghost var n, r, s := attempts, rounds, strobe;
      pass, ok, sub := Guarded(d, p, sub0, cur0, before);
      cur := cur0.Then(a);
      rest := if pass then setup.Phases(attempts, rounds, d, p + 1, strobe) else Start(strobe);
      assert attempts == n + |a.tries| && strobe == a.strobe && rounds == r + 1;
      setup.NextPhase(whole, cur0, n, r, d, p, s, a, rest);
      if !pass {
        StartThen(cur, rest);
        assert cur.tries + [] == cur.tries && cur.log + [] == cur.log;
      }
    }

    /** All output phases at one output delay; a guaranteed read that fails ends them. */
    method Phases(d: int, sub0: Substage, ghost done: Leg, ghost before: Report) returns (ok: bool, sub: Substage)
      requires At(done, before) && sub0 == setup.Blame(tries)
      modifies this`strobe, this`attempts, this`tries, this`log, this`rounds, gbl`error
      ensures var leg := setup.Phases(old(attempts), old(rounds), d, 0, old(strobe));
        At(done.Then(leg), before) && ok == leg.ok && (!ok ==> sub == setup.Blame(tries))
    {
      ghost var rest := setup.Phases(attempts, rounds, d, 0, strobe);
      ghost var whole, cur := done.Then(rest), done.Then(Start(strobe));
      ok, sub := false, sub0;
      StartThen(done, rest);
      var p, pass := 0, true;
      while p <= setup.outPhaseMax && !ok
        invariant Split(whole, cur, rest, ok, sub, before)
        invariant !ok ==> rest == setup.Phases(attempts, rounds, d, p, strobe)
        decreases setup.outPhaseMax + 1 - p
      {
        pass, ok, sub, cur, rest := PhaseStep(d, p, sub, cur, whole, before);
        if !pass {
          return;
        }
        p := p + 1;
      }
      StartThen(cur, rest);
      assert !ok ==> rest == Start(strobe) && cur.Then(rest) == cur;
    }

    /** One output delay of the loop. */
    method DelayStep(d: int, sub0: Substage, ghost cur0: Leg, ghost whole: Leg, ghost before: Report)
      returns (ok: bool, sub: Substage, ghost cur: Leg, ghost rest: Leg)
      requires d <= setup.outDelayMax
      requires Split(whole, cur0, setup.Delays(attempts, rounds, d, strobe), false, sub0, before)
      modifies this`strobe, this`attempts, this`tries, this`log, this`rounds, gbl`error
      ensures Split(whole, cur, rest, ok, sub, before)
      ensures !ok ==> rest == setup.Delays(attempts, rounds, d + 2, strobe)
      ensures !ok || setup.LastAt(tries, d)
    {
      ghost var a, n, r, s := setup.Phases(attempts, rounds, d, 0, strobe), attempts, rounds, strobe;
      setup.StepEndsAt(cur0, n, r, d, s);
      ok, sub := Phases(d, sub0, cur0, before);
      cur := cur0.Then(a);
      rest := setup.Delays(attempts, rounds, d + 2, strobe);
      assert attempts == n + |a.tries| && rounds == r + a.rounds && strobe == a.strobe;
      setup.NextDelay(whole, cur0, n, r, d, s, a, rest);
    }

    /** Every second output delay until an attempt succeeds; `d` ends up two past the last one. */
    method Delays(ghost before: Report) returns (ok: bool, d: int, sub: Substage)
      requires tries == [] && log == [] && attempts == rounds == 0 && gbl.error == before
      modifies this`strobe, this`attempts, this`tries, this`log, this`rounds, gbl`error
      ensures At(setup.Run(old(strobe)), before) && ok == setup.Run(old(strobe)).ok && (!ok ==> sub == setup.Blame(tries))
      ensures !ok || setup.LastAt(tries, d - 2)
    {
      ghost var rest, cur := setup.Delays(attempts, rounds, 0, strobe), Start(strobe);
      ghost var whole := rest;
      ok, d, sub := false, 0, SubGuaranteedRead;
      StartThen(cur, rest);
      while d <= setup.outDelayMax && !ok
        invariant Split(whole, cur, rest, ok, sub, before)
        invariant !ok ==> rest == setup.Delays(attempts, rounds, d, strobe)
        invariant !ok || setup.LastAt(tries, d - 2)
        decreases setup.outDelayMax + 1 - d
      {
        ok, sub, cur, rest := DelayStep(d, sub, cur, whole, before);
        d := d + 2;
      }
      StartThen(cur, rest);
      assert !ok ==> rest == Start(strobe) && cur.Then(rest) == cur;
    }

    /** The stage: the run of the specification, the failure of the stage reported last, and the output chains put back
        to zero exactly when success came at a raised output delay. */
    method Calibrate(writeGroup: int) returns (ok: bool)
      requires tries == [] && log == [] && attempts == rounds == 0
      modifies this, gbl`error
      ensures var leg := setup.Run(old(strobe));
        && ok == leg.ok && tries == leg.tries && rounds == leg.rounds && strobe == leg.strobe
        && log == setup.Reports(leg, writeGroup) && gbl.error == Recorded(old(gbl.error), log)
      ensures zeroed <==> ok && tries != [] && tries[|tries| - 1].d > 0
    {
      ghost var before := gbl.error;
      var d, sub;
      zeroed := false;
      ok, d, sub := Delays(before);
      if !ok {
        Fail(Report(writeGroup, StageVfifo, sub), before);
      } else if d > 2 {
        zeroed := true;
      }
    }
  }

  // Two runs with the constants of the Cyclone V build.

  function Always(n: nat): bool { true }
  function Never(n: nat): bool { false }

  /** Centring that fails in attempt 0 and passes afterwards. */
  function FirstFails(n: nat, sr: nat, v: int): Centring
  {
    if n == 0 then Centring(false, [Report(3, StageVfifo, SubVfifoCenter)], v) else Centring(true, [], v)
  }

  const STUCK := Setup(12, 0, 31, [false], Always, Never, FirstFails)
  const RETRY := Setup(12, 0, 31, [false], Always, Always, FirstFails)

  /** One output delay with a single output phase is one round. */
  lemma OneRound(u: Setup, n: nat, r: nat, d: int, strobe: int)
    requires u.outPhaseMax == 0 && u.guaranteed(r)
    ensures u.Phases(n, r, d, 0, strobe) == u.Guarded(n, d, 0, strobe)
    ensures u.Guarded(n, d, 0, strobe).tries == u.Round(n, d, 0, strobe, strobe, strobe).tries
    ensures u.Guarded(n, d, 0, strobe).strobe == u.Round(n, d, 0, strobe, strobe, strobe).strobe
  {
    var a := u.Guarded(n, d, 0, strobe);
    var x := u.Round(n, d, 0, strobe, strobe, strobe);
    assert [] + x.tries == x.tries && [] + x.log == x.log;
    assert a.tries + [] == a.tries && a.log + [] == a.log;
  }

  lemma StuckRound(n: nat, r: nat, d: int, strobe: int)
    requires 0 <= strobe <= 31
    ensures var a := STUCK.Phases(n, r, d, 0, strobe);
      && !a.ok && a.rounds == 1 && a.strobe == 31 && |a.tries| == 32 - strobe
      && forall k :: 0 <= k < |a.tries| ==> a.tries[k] == Try(d, 0, strobe + k, strobe, a.tries[k].phaseFound, a.tries[k].ok)
  {
    assert !STUCK.skipShadow[0] && STUCK.Active() && STUCK.guaranteed(r);
    OneRound(STUCK, n, r, d, strobe);
    STUCK.RoundShape(n, d, 0, strobe, strobe, strobe);
    STUCK.RoundNeverOk(n, d, 0, strobe, strobe, strobe);
  }

  /** The later rounds of a run try the maximum only: attempts 0 to 27 sweep the strobe from 4 to 31 at output delay
      0, attempt 28 is all there is at output delay 2, and the next one is at output delay 4. */
  lemma LaterRoundsTryOneDelay()
    ensures var tries := STUCK.Run(4).tries;
      && |tries| >= 30 && !STUCK.Run(4).ok
      && tries[0].strobe == 4 && tries[0].d == 0 && tries[27].strobe == 31 && tries[27].d == 0
      && tries[28].strobe == 31 && tries[28].d == 2 && tries[29].strobe == 31 && tries[29].d == 4
  {
    StuckRound(0, 0, 0, 4);
    StuckRound(28, 1, 2, 31);
    StuckRound(29, 2, 4, 31);
    var a, b, c := STUCK.Phases(0, 0, 0, 0, 4), STUCK.Phases(28, 1, 2, 0, 31), STUCK.Phases(29, 2, 4, 0, 31);
    var rest := STUCK.Delays(30, 3, 6, 31);
    assert STUCK.Delays(29, 2, 4, 31) == c.Then(rest);
    assert STUCK.Delays(28, 1, 2, 31) == b.Then(c.Then(rest));
    assert STUCK.Run(4) == a.Then(b.Then(c.Then(rest)));
    StuckNeverOk(0, 0, 0, 4);
  }

  lemma {:induction false} StuckNeverOk(n: nat, r: nat, d: int, strobe: int)
    requires 0 <= strobe <= 31
    ensures !STUCK.Delays(n, r, d, strobe).ok
    decreases 13 - d
  {
    if d <= 12 {
      StuckRound(n, r, d, strobe);
      var a := STUCK.Phases(n, r, d, 0, strobe);
      StuckNeverOk(n + |a.tries|, r + a.rounds, d + 2, a.strobe);
    }
  }

  /** A retry leaves its mark: the first attempt fails and reports, the second passes, and the stage passes with the
      report on record. */
  lemma RetryReports(writeGroup: int)
    ensures RETRY.Legal() && RETRY.Run(4).ok && |RETRY.Run(4).tries| == 2
    ensures RETRY.Reports(RETRY.Run(4), writeGroup) == [Report(3, StageVfifo, SubVfifoCenter)]
  {
    assert !RETRY.skipShadow[0] && RETRY.Active() && RETRY.guaranteed(0);
    var a, b := RETRY.Attempt(0, 0, 0, 4, 4, 4), RETRY.Attempt(1, 0, 0, 5, 4, 4);
    var c, d := RETRY.CentreFrom(0, 4, 0, 4), RETRY.CentreFrom(1, 4, 0, 5);
    assert RETRY.CentreFrom(0, 4, 1, 4) == RETRY.CentreFrom(1, 4, 1, 4) == Centring(true, [], 4);
    assert RETRY.centres(0, 0, 4) == FirstFails(0, 0, 4) && RETRY.centres(1, 0, 4) == FirstFails(1, 0, 4);
    assert c == Centring(false, [Report(3, StageVfifo, SubVfifoCenter)] + [], 4);
    assert d == Centring(true, [] + [], 4);
    assert a.log == [Report(3, StageVfifo, SubVfifoCenter)] && !a.ok && a.strobe == 4;
    assert b.ok && b.log == [];
    assert RETRY.Round(1, 0, 0, 5, 4, 4) == b;
    assert RETRY.Round(0, 0, 0, 4, 4, 4) == a.Then(b);
    OneRound(RETRY, 0, 0, 0, 4);
    assert RETRY.Run(4) == RETRY.Guarded(0, 0, 0, 4);
  }
}
