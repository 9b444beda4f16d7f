/** The calibration orchestrator: `mem_calibrate`. */
module MemCalibrate {
  import opened CalGlobals
  import opened Words
  import Lfifo
  import VfifoStage

  /** What one stage call does: its verdict and the failures it reports, in order. */
  datatype Outcome = Outcome(ok: bool, log: seq<Report>) {
    /** A stage that fails reports a failure, and no report names the nil stage. */
    ghost predicate Honest()
    {
      && (!ok ==> log != [])
      && forall k :: 0 <= k < |log| ==> log[k].stage != StageNil
    }

    /** This stage, then the next one. */
    function Then(next: Outcome): Outcome
    {
      Outcome(ok && next.ok, log + next.log)
    }
  }

  lemma ThenAssoc(a: Outcome, b: Outcome, c: Outcome)
    ensures a.Then(b).Then(c) == a.Then(b.Then(c))
  {
    assert a.log + b.log + c.log == a.log + (b.log + c.log);
  }

  const PASSED := Outcome(true, [])

  /** A stage call of a write group: the read stage or the second read deskew of a read group, or write deskew of a
      shadow register. */
  datatype Call = ReadCall(r: nat) | WriteCall(sr: nat) | EndCall(r: nat)

  /** The configuration and the outcome of every stage call. */
  datatype Plan = Plan(
    writeGroups: nat,
    readsPerWrite: nat,           // RW_MGR_NUM_DQS_PER_WRITE_GROUP
    shadowRegs: nat,
    skipGroups: Word,
    skipShadow: nat -> bool,
    skipAll: bool, skipVfifo: bool, skipWrites: bool, skipDelaySweeps: bool, skipLfifo: bool,
    vfifo: nat -> Outcome,        // per read group
    writes: (nat, nat) -> Outcome,  // per shadow register and write group
    vfifoEnd: nat -> Outcome)
  {
    ghost predicate Honest()
    {
      && (forall r :: vfifo(r).Honest() && vfifoEnd(r).Honest())
      && forall sr, w :: writes(sr, w).Honest()
    }

    function FirstRead(w: nat): nat
      ensures FirstRead(w) == Times(w, readsPerWrite)
    {
      TimesMono(0, w, readsPerWrite);
      Times(w, readsPerWrite)
    }

    /** A write group runs unless all of its read groups are masked out. */
    ghost predicate Runs(w: nat)
    {
      exists r: nat :: FirstRead(w) <= r < FirstRead(w + 1) && r < WIDTH && !skipGroups[r]
    }

    /** Every stage call of a write group passes. */
    ghost predicate GroupPasses(w: nat)
    {
      && (!skipVfifo ==> forall r: nat :: FirstRead(w) <= r < FirstRead(w + 1) ==> vfifo(r).ok)
      && (!skipWrites && !skipDelaySweeps ==> forall sr: nat :: sr < shadowRegs && !skipShadow(sr) ==> writes(sr, w).ok)
      && (!skipWrites ==> forall r: nat :: FirstRead(w) <= r < FirstRead(w + 1) ==> vfifoEnd(r).ok)
    }

    /** Every write group that is not masked out passes. */
    ghost predicate AllPass()
    {
      forall w: nat :: w < writeGroups && Runs(w) ==> GroupPasses(w)
    }

    /** Calibration as a whole and the latency search are not to be skipped, and no group is masked out. */
    ghost predicate LatencyDue()
    {
      !skipAll && !skipLfifo && forall r :: 0 <= r < WIDTH ==> !skipGroups[r]
    }

    /** No stage call of a write group that runs reports anything. */
    ghost predicate AllSilent()
    {
      forall w: nat :: w < writeGroups && Runs(w) ==> GroupSilent(w)
    }

    /** Read groups r, r+1, .. up to the first one that fails. */
    ghost function Reads(skip: bool, stage: nat -> Outcome, r: nat, hi: nat): Outcome
      decreases hi - r
    {
      if skip || r >= hi then PASSED
      else if !stage(r).ok then stage(r)
      else stage(r).Then(Reads(skip, stage, r + 1, hi))
    }

    /** One shadow register of the output side. */
    function Write(sr: nat, w: nat): Outcome
    {
      if skipWrites || skipDelaySweeps || skipShadow(sr) then PASSED else writes(sr, w)
    }

    /** Shadow registers sr, sr+1, ..: a sweep goes on after a failure. */
    ghost function Writes(sr: nat, w: nat, sweep: bool): Outcome
      decreases shadowRegs - sr
    {
      if sr >= shadowRegs then PASSED
      else if !Write(sr, w).ok && !sweep then Write(sr, w)
      else Write(sr, w).Then(Writes(sr + 1, w, sweep))
    }

    ghost function Group(w: nat, sweep: bool): Outcome
    {
      var a := Reads(skipVfifo, vfifo, FirstRead(w), FirstRead(w + 1));
      if !a.ok then a else
      var b := Writes(0, w, sweep);
      if !b.ok then a.Then(b) else
      a.Then(b).Then(Reads(skipWrites, vfifoEnd, FirstRead(w), FirstRead(w + 1)))
    }

    /** Write groups w, w+1, ..: a sweep goes on after a failure. */
    ghost function Groups(w: nat, sweep: bool): Outcome
      decreases writeGroups - w
    {
      if w >= writeGroups then PASSED
      else if !Runs(w) then Groups(w + 1, sweep)
      else if !Group(w, sweep).ok && !sweep then Group(w, sweep)
      else Group(w, sweep).Then(Groups(w + 1, sweep))
    }

    lemma {:induction false} ReadsVerdict(skip: bool, stage: nat -> Outcome, r: nat, hi: nat)
      requires forall q :: stage(q).Honest()
      ensures Reads(skip, stage, r, hi).Honest()
      ensures Reads(skip, stage, r, hi).ok <==> (!skip ==> forall q: nat :: r <= q < hi ==> stage(q).ok)
      decreases hi - r
    {
      if !skip && r < hi && stage(r).ok {
        ReadsVerdict(skip, stage, r + 1, hi);
      }
    }

    lemma {:induction false} WritesVerdict(sr: nat, w: nat, sweep: bool)
      requires Honest()
      ensures Writes(sr, w, sweep).Honest()
      ensures Writes(sr, w, sweep).ok <==> forall q: nat :: sr <= q < shadowRegs ==> Write(q, w).ok
      decreases shadowRegs - sr
    {
      if sr < shadowRegs {
        assert Write(sr, w).Honest();
        WritesVerdict(sr + 1, w, sweep);
      }
    }

    lemma GroupVerdict(w: nat, sweep: bool)
      requires Honest()
      ensures Group(w, sweep).Honest()
      ensures Group(w, sweep).ok <==> GroupPasses(w)
    {
      ReadsVerdict(skipVfifo, vfifo, FirstRead(w), FirstRead(w + 1));
      WritesVerdict(0, w, sweep);
      ReadsVerdict(skipWrites, vfifoEnd, FirstRead(w), FirstRead(w + 1));
      assert forall q :: Write(q, w).ok <==> (!skipWrites && !skipDelaySweeps && !skipShadow(q) ==> writes(q, w).ok);
    }

    /** No stage call of a write group reports anything. */
    ghost predicate GroupSilent(w: nat)
    {
      && (!skipVfifo ==> forall r: nat :: FirstRead(w) <= r < FirstRead(w + 1) ==> vfifo(r).log == [])
      && (!skipWrites && !skipDelaySweeps ==> forall sr: nat :: sr < shadowRegs && !skipShadow(sr) ==> writes(sr, w).log == [])
      && (!skipWrites ==> forall r: nat :: FirstRead(w) <= r < FirstRead(w + 1) ==> vfifoEnd(r).log == [])
    }

    lemma {:induction false} ReadsSilentIff(skip: bool, stage: nat -> Outcome, r: nat, hi: nat)
      requires Reads(skip, stage, r, hi).ok
      ensures Reads(skip, stage, r, hi).log == [] <==> (!skip ==> forall q: nat :: r <= q < hi ==> stage(q).log == [])
      decreases hi - r
    {
      if !skip && r < hi {
        ReadsSilentIff(skip, stage, r + 1, hi);
      }
    }

    lemma {:induction false} WritesSilentIff(sr: nat, w: nat, sweep: bool)
      requires Writes(sr, w, sweep).ok
      ensures Writes(sr, w, sweep).log == [] <==> forall q: nat :: sr <= q < shadowRegs ==> Write(q, w).log == []
      decreases shadowRegs - sr
    {
      if sr < shadowRegs {
        WritesSilentIff(sr + 1, w, sweep);
      }
    }

    lemma GroupSilentIff(w: nat, sweep: bool)
      requires Group(w, sweep).ok
      ensures Group(w, sweep).log == [] <==> GroupSilent(w)
    {
      ReadsSilentIff(skipVfifo, vfifo, FirstRead(w), FirstRead(w + 1));
      WritesSilentIff(0, w, sweep);
      ReadsSilentIff(skipWrites, vfifoEnd, FirstRead(w), FirstRead(w + 1));
      assert forall q :: Write(q, w).log == [] <==>
        (!skipWrites && !skipDelaySweeps && !skipShadow(q) ==> writes(q, w).log == []);
    }

    /** Groups that pass report nothing exactly when no stage call of a group that runs reports anything. */
    lemma {:induction false} GroupsSilentIff(w: nat, sweep: bool)
      requires Groups(w, sweep).ok
      ensures Groups(w, sweep).log == [] <==> forall v: nat :: w <= v < writeGroups && Runs(v) ==> GroupSilent(v)
      decreases writeGroups - w
    {
      if w < writeGroups {
        if Runs(w) {
          GroupSilentIff(w, sweep);
        }
        GroupsSilentIff(w + 1, sweep);
      }
    }

    // Which report comes first.

    lemma {:induction false} FirstOfReads(skip: bool, stage: nat -> Outcome, lo: nat, hi: nat, r: nat)
      requires !skip && lo <= r < hi && stage(r).log != [] && forall q: nat :: lo <= q < r ==> stage(q) == PASSED
      ensures var log := Reads(skip, stage, lo, hi).log; log != [] && log[0] == stage(r).log[0]
      decreases hi - lo
    {
      if lo < r {
        FirstOfReads(skip, stage, lo + 1, hi, r);
      }
    }

    lemma {:induction false} FirstOfWrites(lo: nat, w: nat, sweep: bool, sr: nat)
      requires Honest() && lo <= sr < shadowRegs && Write(sr, w).log != []
      requires forall q: nat :: lo <= q < sr ==> Write(q, w).log == []
      ensures var log := Writes(lo, w, sweep).log; log != [] && log[0] == Write(sr, w).log[0]
      decreases shadowRegs - lo
    {
      if lo < sr {
        assert Write(lo, w).Honest();
        FirstOfWrites(lo + 1, w, sweep, sr);
      }
    }

    /** No enabled read stage of a group reports. */
    ghost predicate ReadsQuiet(w: nat)
    {
      !skipVfifo ==> forall r: nat :: FirstRead(w) <= r < FirstRead(w + 1) ==> vfifo(r).log == []
    }

    /** No enabled write stage of a group reports. */
    ghost predicate WritesQuiet(w: nat)
    {
      !skipWrites && !skipDelaySweeps ==> forall sr: nat :: sr < shadowRegs && !skipShadow(sr) ==> writes(sr, w).log == []
    }

    /** A stage call of group w that reports while no call before it does; the read stages come first, then write
        deskew, then the second read deskew. */
    ghost predicate ReportsFirst(w: nat, c: Call)
    {
      match c
      case ReadCall(r) =>
        && !skipVfifo && FirstRead(w) <= r < FirstRead(w + 1) && vfifo(r).log != []
        && forall q: nat :: FirstRead(w) <= q < r ==> vfifo(q).log == []
      case WriteCall(sr) =>
        && ReadsQuiet(w) && !skipWrites && !skipDelaySweeps && sr < shadowRegs && !skipShadow(sr) && writes(sr, w).log != []
        && forall q: nat :: q < sr && !skipShadow(q) ==> writes(q, w).log == []
      case EndCall(r) =>
        && ReadsQuiet(w) && WritesQuiet(w) && !skipWrites && FirstRead(w) <= r < FirstRead(w + 1) && vfifoEnd(r).log != []
        && forall q: nat :: FirstRead(w) <= q < r ==> vfifoEnd(q).log == []
    }

    ghost function LogOf(w: nat, c: Call): seq<Report>
    {
      match c
      case ReadCall(r) => vfifo(r).log
      case WriteCall(sr) => writes(sr, w).log
      case EndCall(r) => vfifoEnd(r).log
    }

    /** The first report of a group is that of its first stage call that reports. */
    lemma FirstReportOfGroup(w: nat, sweep: bool, c: Call)
      requires Honest() && ReportsFirst(w, c)
      ensures var log := Group(w, sweep).log; log != [] && LogOf(w, c) != [] && log[0] == LogOf(w, c)[0]
    {
      ReadsVerdict(skipVfifo, vfifo, FirstRead(w), FirstRead(w + 1));
      WritesVerdict(0, w, sweep);
      var a, b := Reads(skipVfifo, vfifo, FirstRead(w), FirstRead(w + 1)), Writes(0, w, sweep);
      if c.ReadCall? {
        FirstOfReads(skipVfifo, vfifo, FirstRead(w), FirstRead(w + 1), c.r);
      } else {
        ReadsSilentIff(skipVfifo, vfifo, FirstRead(w), FirstRead(w + 1));
        assert a.ok && a.log == [];
        if c.WriteCall? {
          FirstOfWrites(0, w, sweep, c.sr);
        } else {
          WritesSilentIff(0, w, sweep);
          assert b.ok && b.log == [];
          FirstOfReads(skipWrites, vfifoEnd, FirstRead(w), FirstRead(w + 1), c.r);
        }
      }
    }

    /** The first report of a calibration is that of the first group that runs and reports. */
    lemma {:induction false} FirstReportOfGroups(v: nat, w: nat, sweep: bool)
      requires Honest() && v <= w < writeGroups && Runs(w) && Group(w, sweep).log != []
      requires forall u: nat :: v <= u < w && Runs(u) ==> Group(u, sweep).log == []
      ensures var log := Groups(v, sweep).log; log != [] && log[0] == Group(w, sweep).log[0]
      decreases w - v
    {
      if v < w {
        GroupVerdict(v, sweep);
        FirstReportOfGroups(v + 1, w, sweep);
      }
    }

    /** In either mode the groups pass iff every group that runs passes every enabled stage. */
    lemma {:induction false} GroupsVerdict(w: nat, sweep: bool)
      requires Honest()
      ensures Groups(w, sweep).Honest()
      ensures Groups(w, sweep).ok <==> forall v: nat :: w <= v < writeGroups && Runs(v) ==> GroupPasses(v)
      decreases writeGroups - w
    {
      if w < writeGroups {
        GroupVerdict(w, sweep);
        GroupsVerdict(w + 1, sweep);
      }
    }

    lemma {:induction false} WritesPrefix(sr: nat, w: nat)
      ensures Writes(sr, w, false).log <= Writes(sr, w, true).log
      ensures Writes(sr, w, false).ok <==> Writes(sr, w, true).ok
      ensures Writes(sr, w, true).ok ==> Writes(sr, w, false) == Writes(sr, w, true)
      decreases shadowRegs - sr
    {
      if sr < shadowRegs {
        WritesPrefix(sr + 1, w);
      }
    }

    lemma GroupPrefix(w: nat)
      ensures Group(w, false).log <= Group(w, true).log
      ensures Group(w, false).ok <==> Group(w, true).ok
      ensures Group(w, true).ok ==> Group(w, false) == Group(w, true)
    {
      WritesPrefix(0, w);
    }

    /** Stopping at the first failure reports a prefix of what a full sweep reports. */
    lemma {:induction false} GroupsPrefix(w: nat)
      ensures Groups(w, false).log <= Groups(w, true).log
      ensures Groups(w, false).ok <==> Groups(w, true).ok
      ensures Groups(w, true).ok ==> Groups(w, false) == Groups(w, true)
      decreases writeGroups - w
    {
      if w < writeGroups {
        GroupPrefix(w);
        GroupsPrefix(w + 1);
      }
    }

    /** The recorded failure is the first one reported, and does not depend on the mode. */
    lemma FirstFailureIsRecorded(sweep: bool)
      requires Honest() && Groups(0, sweep).log != []
      ensures Groups(0, !sweep).log != []
      ensures Recorded(NO_ERROR, Groups(0, sweep).log) == Groups(0, sweep).log[0] == Groups(0, !sweep).log[0]
      ensures Recorded(NO_ERROR, Groups(0, sweep).log).stage != StageNil
    {
      GroupsVerdict(0, sweep);
      GroupsVerdict(0, !sweep);
      GroupsPrefix(0);
    }
  }

  /** After a reset the record holds the first of the failures reported. */
  lemma FirstRecorded(log: seq<Report>)
    requires log != [] ==> log[0].stage != StageNil
    ensures Recorded(NO_ERROR, log) == if log == [] then NO_ERROR else log[0]
  {
    if log != [] {
      RecordedAppend(NO_ERROR, [log[0]], log[1..]);
      assert [log[0]] + log[1..] == log;
    }
  }

  class Sequencer {
    const plan: Plan
    const gbl: Gbl
    const phy: Lfifo.Phy
    const sweepAll: bool       // PHY_DEBUG_SWEEP_ALL_GROUPS
    ghost var log: seq<Report>  // failures reported since calibration began

    constructor (plan: Plan, gbl: Gbl, phy: Lfifo.Phy, sweepAll: bool)
      ensures this.plan == plan && this.gbl == gbl && this.phy == phy && this.sweepAll == sweepAll && log == []
    {
      this.plan, this.gbl, this.phy, this.sweepAll, log := plan, gbl, phy, sweepAll, [];
    }

    /** The global record holds the first failure reported. */
    ghost predicate Valid()
      reads this, gbl
    {
      gbl.error == Recorded(NO_ERROR, log)
    }

    method SetFailing(r: Report)
      requires Valid()
      modifies this, gbl`error
      ensures Valid() && log == old(log) + [r]
    {
      RecordedAppend(NO_ERROR, log, [r]);
      gbl.SetFailingGroupStage(r.group, r.stage, r.substage);
      log := log + [r];
    }

    /** Run one stage. */
    method Run(stage: Outcome) returns (ok: bool)
      requires Valid()
      modifies this, gbl`error
      ensures Valid() && ok == stage.ok && log == old(log) + stage.log
    {
      for k := 0 to |stage.log|
        invariant Valid() && log == old(log) + stage.log[..k]
      {
        SetFailing(stage.log[k]);
      }
      ok := stage.ok;
    }

    /** The read stages of a write group, up to the first failure. */
    method CalibrateReads(skip: bool, stage: nat -> Outcome, w: nat) returns (ok: bool)
      requires Valid()
      modifies this, gbl`error
      ensures Valid()
      ensures Outcome(ok, log)
           == Outcome(true, old(log)).Then(plan.Reads(skip, stage, plan.FirstRead(w), plan.FirstRead(w + 1)))
    {
      var r: int, hi: int := plan.FirstRead(w), plan.FirstRead(w + 1);
      ghost var all := Outcome(true, log).Then(plan.Reads(skip, stage, r, hi));
      ok := true;
      while r < hi && ok
        invariant Valid() && 0 <= r
        invariant ok ==> all == Outcome(true, log).Then(plan.Reads(skip, stage, r, hi))
        invariant !ok ==> all == Outcome(false, log)
      {
        ghost var done := Outcome(true, log);
        if !skip {
          ok := Run(stage(r));
          ThenAssoc(done, stage(r), plan.Reads(skip, stage, r + 1, hi));
        }
        r := r + 1;
      }
    }

    method CalibrateWrite(sr: nat, w: nat) returns (ok: bool)
      requires Valid()
      modifies this, gbl`error
      ensures Valid() && ok == plan.Write(sr, w).ok && log == old(log) + plan.Write(sr, w).log
    {
      ok := true;
      if !plan.skipWrites && !plan.skipDelaySweeps && !plan.skipShadow(sr) {
        ok := Run(plan.writes(sr, w));
      }
    }

    /** The output side of a write group. */
    method CalibrateWrites(w: nat) returns (ok: bool)
      requires Valid()
      modifies this, gbl`error
      ensures Valid() && Outcome(ok, log) == Outcome(true, old(log)).Then(plan.Writes(0, w, sweepAll))
    {
      ok := true;
      var sr := 0;
      ghost var all := Outcome(true, log).Then(plan.Writes(0, w, sweepAll));
      while sr < plan.shadowRegs
        invariant Valid() && 0 <= sr <= plan.shadowRegs && (sweepAll || ok)
        invariant all == Outcome(ok, log).Then(plan.Writes(sr, w, sweepAll))
      {
        ghost var done := Outcome(ok, log);
        var passed := CalibrateWrite(sr, w);
        ThenAssoc(done, plan.Write(sr, w), plan.Writes(sr + 1, w, sweepAll));
        if !passed && !sweepAll {
          return false;
        }
        ok := ok && passed;
        sr := sr + 1;
      }
    }

    method CalibrateGroup(w: nat) returns (ok: bool)
      requires Valid()
      modifies this, gbl`error
      ensures Valid() && Outcome(ok, log) == Outcome(true, old(log)).Then(plan.Group(w, sweepAll))
    {
      ghost var start := Outcome(true, log);
      ghost var a := plan.Reads(plan.skipVfifo, plan.vfifo, plan.FirstRead(w), plan.FirstRead(w + 1));
      ok := CalibrateReads(plan.skipVfifo, plan.vfifo, w);
      if !ok {
        return;
      }
      ghost var b := plan.Writes(0, w, sweepAll);
      ok := CalibrateWrites(w);
      ThenAssoc(start, a, b);
      if !ok {
        return;
      }
      ghost var c := plan.Reads(plan.skipWrites, plan.vfifoEnd, plan.FirstRead(w), plan.FirstRead(w + 1));
      ok := CalibrateReads(plan.skipWrites, plan.vfifoEnd, w);
      ThenAssoc(start, a.Then(b), c);
    }

    /** The mask of the groups still to come, shifted by one write group a turn. */
    ghost function Remaining(w: nat): Word
    {
      Shr(Not(plan.skipGroups), plan.FirstRead(w))
    }

    lemma RunsFromMask(w: nat)
      ensures !IsZero(And(Remaining(w), Mask(plan.readsPerWrite))) <==> plan.Runs(w)
    {
      var run := And(Remaining(w), Mask(plan.readsPerWrite));
      var first := plan.FirstRead(w);
      assert plan.FirstRead(w + 1) == first + plan.readsPerWrite;
      if !IsZero(run) {
        var k :| 0 <= k < WIDTH && run[k];
        assert first <= first + k < plan.FirstRead(w + 1) && !plan.skipGroups[first + k];
      }
      if plan.Runs(w) {
        var r: nat :| first <= r < plan.FirstRead(w + 1) && r < WIDTH && !plan.skipGroups[r];
        assert run[r - first];
      }
    }

    lemma NextMask(w: nat)
      ensures Shr(Remaining(w), plan.readsPerWrite) == Remaining(w + 1)
    {
    }

    /** All write groups; stops at the first failing one unless sweeping. */
    method CalibrateGroups() returns (ok: bool)
      requires Valid()
      modifies this, gbl`error
      ensures Valid() && Outcome(ok, log) == Outcome(true, old(log)).Then(plan.Groups(0, sweepAll))
    {
      var failingGroups := 0;
      var runGroups := Not(plan.skipGroups);
      var w := 0;
      ghost var all := Outcome(true, log).Then(plan.Groups(0, sweepAll));
      assert runGroups == Remaining(0);
      while w < plan.writeGroups
        invariant Valid() && 0 <= w <= plan.writeGroups && runGroups == Remaining(w) && 0 <= failingGroups
        invariant all == Outcome(failingGroups == 0, log).Then(plan.Groups(w, sweepAll))
        invariant sweepAll || failingGroups == 0
      {
        RunsFromMask(w);
        NextMask(w);
        ghost var done := Outcome(failingGroups == 0, log);
        ThenAssoc(done, plan.Group(w, sweepAll), plan.Groups(w + 1, sweepAll));
        var currentRun := And(runGroups, Mask(plan.readsPerWrite));
        runGroups := Shr(runGroups, plan.readsPerWrite);
        if !IsZero(currentRun) {
          var passed := CalibrateGroup(w);
          if !passed && !sweepAll {
            return false;
          }
          if !passed {
            failingGroups := failingGroups + 1;
          }
        }
        w := w + 1;
      }
      ok := failingGroups == 0;
    }

    /** The LFIFO search runs unless it is skipped or groups are masked out for debugging. */
    predicate SearchesLatency()
    {
      !plan.skipLfifo && IsZero(plan.skipGroups)
    }

    /** Calibration passes iff every write group that is not masked out passes every enabled stage, and the
        starting read latency works if it is tried at all.  The mode does not matter. */
    ghost predicate Passes(readLat: int)
    {
      plan.skipAll ||
      (&& plan.AllPass()
       && (SearchesLatency() ==> phy.passes(readLat)))
    }

    /** What the latency search reports. */
    ghost function LatencyFailure(ok: bool): seq<Report>
    {
      if !ok && plan.Groups(0, sweepAll).ok then [Report(0xff, StageLfifo, SubReadLatency)] else []
    }

    /** The failure on record after calibration: the first one a group reported, else that of the latency search. */
    ghost function Failure(ok: bool): Report
    {
      if plan.skipAll then NO_ERROR
      else if plan.Groups(0, sweepAll).log != [] then plan.Groups(0, sweepAll).log[0]
      else if !ok then Report(0xff, StageLfifo, SubReadLatency)
      else NO_ERROR
    }

    /** The latency search after groups that passed. */
    method SearchLatency(passed: bool) returns (ok: bool)
      requires Valid() && 0 <= gbl.currReadLat < U32
      modifies this`log, gbl`error, gbl`currReadLat, phy
      ensures Valid() && 0 <= gbl.currReadLat < U32
      ensures ok == (passed && (SearchesLatency() ==> phy.passes(old(gbl.currReadLat))))
      ensures log == old(log) + if passed && !ok then [Report(0xff, StageLfifo, SubReadLatency)] else []
      ensures !(ok && SearchesLatency()) ||
        Lfifo.StoppedAt(phy.passes, phy.Top(old(gbl.currReadLat)), ToU32(gbl.currReadLat - 2))
      ensures (ok && SearchesLatency()) || gbl.currReadLat == old(gbl.currReadLat)
      ensures (passed && SearchesLatency()) || unchanged(phy)
    {
      ok := passed;
      if passed && SearchesLatency() {
        RecordedAppend(NO_ERROR, log, [Report(0xff, StageLfifo, SubReadLatency)]);
        ok := phy.Calibrate(gbl);
        if !ok {
          log := log + [Report(0xff, StageLfifo, SubReadLatency)];
        }
      }
    }

    /** `mem_calibrate`, with the starting read latency that the memory configuration chose. */
    method Calibrate(readLat: int) returns (ok: bool)
      requires plan.Honest() && 0 <= readLat < U32
      modifies this, gbl, phy
      ensures Valid() && (ok <==> Passes(readLat))
      // the failure on record, in every case
      ensures gbl.error == Failure(ok) && (!ok ==> gbl.error.stage != StageNil)
      ensures log == if plan.skipAll then [] else plan.Groups(0, sweepAll).log + LatencyFailure(ok)
      ensures !plan.skipAll && plan.Groups(0, true).log != [] ==> gbl.error == plan.Groups(0, true).log[0]
      ensures ok ==> (gbl.error == NO_ERROR <==> plan.skipAll || plan.AllSilent())
      // the latency search runs unless told not to, and only with no group masked out
      ensures plan.LatencyDue() ==> (ok <==> plan.AllPass() && phy.passes(readLat))
      ensures !plan.LatencyDue() ==> (ok <==> plan.skipAll || plan.AllPass())
      ensures !(ok && plan.LatencyDue()) || Lfifo.StoppedAt(phy.passes, phy.Top(readLat), ToU32(gbl.currReadLat - 2))
      ensures if ok && plan.LatencyDue() then 0 <= gbl.currReadLat < U32 else gbl.currReadLat == readLat
      ensures unchanged(phy) || (plan.LatencyDue() && plan.AllPass())
    {
      gbl.error, gbl.fomIn, gbl.fomOut := NO_ERROR, 0, 0;
      log := [];
      gbl.currReadLat := readLat;
      if plan.skipAll {
        return true;
      }
      plan.GroupsVerdict(0, sweepAll);
      plan.GroupsPrefix(0);
      ok := CalibrateGroups();
      ghost var reported := plan.Groups(0, sweepAll).log;
      assert log == reported;
      FirstRecorded(log);
      if ok {
        plan.GroupsSilentIff(0, sweepAll);
      }
      ok := SearchLatency(ok);
      FirstRecorded(log);
    }
  }

  /** The outcome of the read stage of a group. */
  ghost function StageOutcome(u: VfifoStage.Setup, strobe: int, writeGroup: int): Outcome
  {
    Outcome(u.Run(strobe).ok, u.Reports(u.Run(strobe), writeGroup))
  }

  /** The read stage is a stage as the orchestrator expects it. */
  lemma StageIsHonest(u: VfifoStage.Setup, strobe: int, writeGroup: int)
    requires u.Legal() && 0 <= strobe <= u.strobeMax && u.CentresNamed()
    ensures StageOutcome(u, strobe, writeGroup).Honest()
  {
    u.ReportsNamed(strobe, writeGroup);
  }

  /** One group whose read stage retries once; everything else passes at once. */
  ghost function RetryPlan(): Plan
  {
    Plan(1, 1, 1, Mask(0), (_: nat) => false, false, false, false, false, false,
         (_: nat) => StageOutcome(VfifoStage.RETRY, 4, 0), (_: nat, _: nat) => PASSED, (_: nat) => PASSED)
  }

  /** A passing calibration can leave a failure on record: the first attempt of a read stage fails and reports, the
      second passes. */
  lemma PassWithFailureOnRecord(sweep: bool)
    ensures RetryPlan().Groups(0, sweep).ok && RetryPlan().AllPass() && !RetryPlan().AllSilent()
    ensures RetryPlan().Groups(0, sweep).log == [Report(3, StageVfifo, SubVfifoCenter)]
  {
    var p := RetryPlan();
    VfifoStage.RetryReports(0);
    assert p.FirstRead(0) == 0 && p.FirstRead(1) == 1;
    assert !p.skipGroups[0] && p.Runs(0);
    assert p.vfifo(0) == Outcome(true, [Report(3, StageVfifo, SubVfifoCenter)]);
    assert p.Reads(false, p.vfifo, 0, 1) == p.vfifo(0).Then(PASSED);
    assert p.Reads(false, p.vfifoEnd, 0, 1) == PASSED;
    assert p.Writes(0, 0, sweep) == p.Write(0, 0).Then(PASSED) == PASSED;
    assert p.Groups(0, sweep) == p.Group(0, sweep).Then(PASSED);
  }
}
