/** The stages put together: what a passing calibration leaves in the delay registers. */
module Board {
  import opened CalGlobals
  import opened Deskew
  import opened DmSearch
  import opened MemCalibrate
  import opened ReadDeskew
  import opened Words
  import opened WriteDeskew
  import Lfifo
  import VfifoStage

  lemma {:induction false} LowestExists(rs: seq<Window>, m: int, k: int)
    requires |rs| > 0
    ensures exists low :: IsMinOffset(rs, m, k, low)
    decreases |rs|
  {
    var n := |rs| - 1;
    var last := Offset(rs[n], m, k);
    if n == 0 {
      assert IsMinOffset(rs, m, k, last);
    } else {
      LowestExists(rs[..n], m, k);
      var low :| IsMinOffset(rs[..n], m, k, low);
      var i :| 0 <= i < n && low == Offset(rs[..n][i], m, k);
      assert forall j :: 0 <= j < n ==> low <= Offset(rs[..n][j], m, k) == Offset(rs[j], m, k);
      assert low == Offset(rs[i], m, k);
      assert IsMinOffset(rs, m, k, Min(low, last));
    }
  }

  /** The smallest offset of a group. */
  ghost function Lowest(rs: seq<Window>, m: int, k: int): int
    requires |rs| > 0
  {
    LowestExists(rs, m, k);
    var low :| IsMinOffset(rs, m, k, low);
    low
  }

  lemma LowestIsMin(rs: seq<Window>, m: int, k: int)
    requires |rs| > 0
    ensures IsMinOffset(rs, m, k, Lowest(rs, m, k))
  {
    LowestExists(rs, m, k);
  }

  lemma LowestIsOnly(rs: seq<Window>, m: int, k: int, low: int)
    requires IsMinOffset(rs, m, k, low)
    ensures |rs| > 0 && low == Lowest(rs, m, k)
  {
    LowestIsMin(rs, m, k);
  }

  /** The windows before i are in reach, and the next one, if any, is not. */
  predicate Stops(rs: seq<Window>, m: int, k: int, i: nat)
  {
    i <= |rs| && AllMeet(rs[..i], m, k) && (i < |rs| ==> !Meets(rs[i], m, k))
  }

  lemma {:induction false} StopsExists(rs: seq<Window>, m: int, k: int, i: nat)
    requires i <= |rs| && AllMeet(rs[..i], m, k)
    ensures exists j: nat :: Stops(rs, m, k, j)
    decreases |rs| - i
  {
    if i < |rs| && Meets(rs[i], m, k) {
      assert rs[..i + 1] == rs[..i] + [rs[i]];
      StopsExists(rs, m, k, i + 1);
    } else {
      assert Stops(rs, m, k, i);
    }
  }

  /** The first window out of reach, or the number of windows. */
  ghost function Missing(rs: seq<Window>, m: int, k: int): (i: nat)
  {
    StopsExists(rs, m, k, 0);
    var i: nat :| Stops(rs, m, k, i);
    i
  }

  lemma MissingIs(rs: seq<Window>, m: int, k: int)
    ensures Missing(rs, m, k) <= |rs| && (Missing(rs, m, k) < |rs| ==> FirstMissing(rs, m, k, Missing(rs, m, k)))
    ensures Missing(rs, m, k) == |rs| <==> AllMeet(rs, m, k)
  {
    StopsExists(rs, m, k, 0);
    var i := Missing(rs, m, k);
    assert Stops(rs, m, k, i);
    assert forall j :: 0 <= j < i ==> rs[..i][j] == rs[j];
    assert rs[..|rs|] == rs;
  }

  lemma MissingIsOnly(rs: seq<Window>, m: int, k: int, i: int)
    requires FirstMissing(rs, m, k, i)
    ensures i == Missing(rs, m, k) && !AllMeet(rs, m, k)
  {
    MissingIs(rs, m, k);
  }

  /** What deskew of one group does: the verdict, the first bit out of reach (the number of bits if there is none),
      and the delays of the data pins, the strobe and the mask when there is none. */
  datatype Deskewed = Deskewed(ok: bool, missing: nat, dq: seq<int>, dqs: int, dm: int)

  /** The data delays of a group whose smallest offset is low. */
  function ReadDelays(rs: seq<Window>, start: int, maxDq: int, maxDqs: int, low: int): (dq: seq<int>)
    requires 0 <= maxDqs
    ensures |dq| == |rs|
  {
    seq(|rs|, i requires 0 <= i < |rs| => ClampShift(WantedDq(Offset(rs[i], maxDq, maxDqs - start), low, start, maxDqs), 0, maxDq))
  }

  /** The data chain brings every bit to the near edge of its window at strobe delay dqs. */
  predicate AllReach(rs: seq<Window>, start: int, maxDq: int, maxDqs: int, dqs: int)
  {
    forall i :: 0 <= i < |rs| ==> -Right(rs[i], maxDqs - start) <= maxDq + (start - dqs)
  }

  /** The outcome for the first bit out of reach and the smallest offset given. */
  function ReadWith(ws: seq<Window>, start: int, maxDq: int, maxDqs: int, missing: nat, low: int): Deskewed
    requires 0 <= maxDqs
  {
    var rs, dqs := RelAll(ws, start), NewDqs(low, start, maxDqs);
    if missing < |ws| then Deskewed(false, missing, Same(|ws|, 0), start, 0)
    else Deskewed(AllReach(rs, start, maxDq, maxDqs, dqs), |ws|, ReadDelays(rs, start, maxDq, maxDqs, low), dqs, 0)
  }

  /** Read deskew of a group that starts at pin 0. */
  ghost function ReadCentre(ws: seq<Window>, start: int, maxDq: int, maxDqs: int): Deskewed
    requires 0 <= maxDqs && |ws| > 0
  {
    var rs, k := RelAll(ws, start), maxDqs - start;
    ReadWith(ws, start, maxDq, maxDqs, Missing(rs, maxDq, k), Lowest(rs, maxDq, k))
  }

  /** The data delays on the write side, where the strobe stays. */
  function WriteDelays(rs: seq<Window>, start: int, maxOut: int, low: int): (dq: seq<int>)
    requires 0 <= maxOut
    ensures |dq| == |rs|
  {
    seq(|rs|, i requires 0 <= i < |rs| => Clamp(Centre(Offset(rs[i], maxOut, maxOut - start), low), 0, maxOut))
  }

  /** Every window reaches the data side. */
  predicate OnDataSide(ws: seq<Window>, start: int)
  {
    forall i :: 0 <= i < |ws| ==> Rel(ws[i], start).hi >= 0
  }

  function WriteWith(ws: seq<Window>, test: MaskTest, start: int, maxOut: int, missing: nat, low: int): Deskewed
    requires 0 <= maxOut
  {
    var dq := WriteDelays(RelAll(ws, start), start, maxOut, low);
    var best := MaskSearch(test, dq, start, maxOut);
    if missing < |ws| then Deskewed(false, missing, Same(|ws|, 0), start, 0)
    else Deskewed(OnDataSide(ws, start) && best.size > 0 && best.bgn <= 0, |ws|, dq, start, DmMid(best))
  }

  /** Write deskew of a group, with its mask pin. */
  ghost function WriteCentre(ws: seq<Window>, test: MaskTest, start: int, maxOut: int): Deskewed
    requires 0 <= maxOut && |ws| > 0
  {
    var rs, k := RelAll(ws, start), maxOut - start;
    WriteWith(ws, test, start, maxOut, Missing(rs, maxOut, k), Lowest(rs, maxOut, k))
  }

  /** Bit i passes at the delays left, which chains of these lengths can hold. */
  predicate BitWorks(ws: seq<Window>, c: Deskewed, maxDq: int, maxDqs: int, i: nat)
    requires i < |ws|
  {
    |c.dq| == |ws| && Passes(ws[i], c.dq[i], c.dqs) && 0 <= c.dq[i] <= maxDq && 0 <= c.dqs <= maxDqs
  }

  /** Every bit does. */
  predicate Works(ws: seq<Window>, c: Deskewed, maxDq: int, maxDqs: int)
  {
    forall i: nat :: i < |ws| ==> BitWorks(ws, c, maxDq, maxDqs, i)
  }

  // The two methods in place do what these functions say.  (Some clauses below guard a predicate by a case that other
  // clauses exclude, so that the verifier handles the predicate as a whole.)

  lemma CentredDelays(rs: seq<Window>, start: int, maxDq: int, maxDqs: int, low: int, a: seq<int>, dq: seq<int>,
                      dqs: int, margins: (int, int), ok: bool, missing: nat)
    requires 0 <= maxDq && 0 <= maxDqs && missing == |rs|
    requires missing < |rs| || Centred(rs, start, maxDq, maxDqs, low, 0, a, dq, dqs, margins, ok)
    ensures dq == ReadDelays(rs, start, maxDq, maxDqs, low) && dqs == NewDqs(low, start, maxDqs)
    ensures |rs| > 0 && low == Lowest(rs, maxDq, maxDqs - start)
  {
    LowestIsOnly(rs, maxDq, maxDqs - start, low);
    forall i | 0 <= i < |rs|
      ensures dq[i] == ReadDelays(rs, start, maxDq, maxDqs, low)[i]
    {
      assert OtherDelay(a, 0, dq, i) == 0;
    }
  }

  lemma CentredVerdict(rs: seq<Window>, start: int, maxDq: int, maxDqs: int, low: int, a: seq<int>, dq: seq<int>,
                       dqs: int, margins: (int, int), ok: bool, missing: nat)
    requires 0 <= maxDq && 0 <= start <= maxDqs && missing == |rs| && InChain(a, maxDq) && InChain(dq, maxDq)
    requires missing < |rs| || AllMeet(rs, maxDq, maxDqs - start)
    requires missing < |rs| || Centred(rs, start, maxDq, maxDqs, low, 0, a, dq, dqs, margins, ok)
    ensures AllReach(rs, start, maxDq, maxDqs, dqs) == ok
  {
    FirstGroupSucceedsIff(rs, start, maxDq, maxDqs, low, a, dq, dqs, margins, ok);
  }

  lemma ReadCentreIs(ws: seq<Window>, start: int, maxDq: int, maxDqs: int, low: int, dqs: int)
    requires 0 <= maxDqs && |ws| > 0 && dqs == NewDqs(low, start, maxDqs)
    requires Missing(RelAll(ws, start), maxDq, maxDqs - start) == |ws| && low == Lowest(RelAll(ws, start), maxDq, maxDqs - start)
    ensures ReadCentre(ws, start, maxDq, maxDqs)
         == Deskewed(AllReach(RelAll(ws, start), start, maxDq, maxDqs, dqs), |ws|,
                     ReadDelays(RelAll(ws, start), start, maxDq, maxDqs, low), dqs, 0)
  {
  }

  lemma NoneMissing(ws: seq<Window>, start: int, m: int, k: int, missing: nat)
    requires missing == |ws| && (missing < |ws| || AllMeet(RelAll(ws, start), m, k))
    ensures Missing(RelAll(ws, start), m, k) == |ws|
  {
    MissingIs(RelAll(ws, start), m, k);
  }

  lemma CentredIsReadCentre(ws: seq<Window>, start: int, maxDq: int, maxDqs: int, low: int, a: seq<int>, dq: seq<int>,
                            dqs: int, margins: (int, int), ok: bool, missing: nat)
    requires 0 <= maxDq && 0 <= start <= maxDqs && missing == |ws| && InChain(a, maxDq) && InChain(dq, maxDq)
    requires missing < |ws| || AllMeet(RelAll(ws, start), maxDq, maxDqs - start)
    requires missing < |ws| || Centred(RelAll(ws, start), start, maxDq, maxDqs, low, 0, a, dq, dqs, margins, ok)
    ensures |ws| > 0 && ReadCentre(ws, start, maxDq, maxDqs) == Deskewed(ok, |ws|, dq, dqs, 0)
  {
    var rs := RelAll(ws, start);
    NoneMissing(ws, start, maxDq, maxDqs - start, missing);
    CentredDelays(rs, start, maxDq, maxDqs, low, a, dq, dqs, margins, ok, missing);
    CentredVerdict(rs, start, maxDq, maxDqs, low, a, dq, dqs, margins, ok, missing);
    ReadCentreIs(ws, start, maxDq, maxDqs, low, dqs);
  }

  /** What the contract of read deskew says for a group that starts at pin 0. */
  lemma VfifoCenterIs(ws: seq<Window>, start: int, maxDq: int, maxDqs: int, low: int, a: seq<int>, dq: seq<int>,
                      dqs: int, margins: (int, int), ok: bool, missing: int)
    requires 0 <= maxDq && 0 <= start <= maxDqs && InChain(a, maxDq) && InChain(dq, maxDq) && |ws| > 0
    requires missing != |ws| || AllMeet(RelAll(ws, start), maxDq, maxDqs - start)
    requires missing != |ws| || Centred(RelAll(ws, start), start, maxDq, maxDqs, low, 0, a, dq, dqs, margins, ok)
    requires missing == |ws| || FirstMissing(RelAll(ws, start), maxDq, maxDqs - start, missing)
    requires missing == |ws| || (!ok && dqs == start)
    ensures var c := ReadCentre(ws, start, maxDq, maxDqs);
      && c.ok == ok && c.dqs == dqs && 0 <= missing == c.missing && (missing == |ws| ==> c.dq == dq)
  {
    if missing == |ws| {
      CentredIsReadCentre(ws, start, maxDq, maxDqs, low, a, dq, dqs, margins, ok, missing);
    } else {
      MissingIsOnly(RelAll(ws, start), maxDq, maxDqs - start, missing);
    }
  }

  lemma CentredOutDelays(rs: seq<Window>, start: int, maxOut: int, low: int, dq: seq<int>, margins: (int, int))
    requires 0 <= maxOut && CentredOut(rs, start, maxOut, low, dq, margins)
    ensures |rs| > 0 && low == Lowest(rs, maxOut, maxOut - start) && dq == WriteDelays(rs, start, maxOut, low)
  {
    LowestIsOnly(rs, maxOut, maxOut - start, low);
    assert forall i :: 0 <= i < |rs| ==> dq[i] == WriteDelays(rs, start, maxOut, low)[i];
  }

  lemma FinishedIsWriteCentre(path: WritePath, ws: seq<Window>, start: int, low: int, margins: (int, int), best: BestRun, ok: bool)
    requires 0 <= path.maxOut && AllMeet(RelAll(ws, start), path.maxOut, path.maxOut - start)
    requires path.Finished(ws, start, low, margins, best, ok)
    ensures |ws| > 0
    ensures WriteCentre(ws, path.dmTest, start, path.maxOut) == Deskewed(ok, |ws|, path.dqOut[..], path.dqsOut, path.dmOut)
  {
    var rs := RelAll(ws, start);
    NoneMissing(ws, start, path.maxOut, path.maxOut - start, |ws|);
    CentredOutDelays(rs, start, path.maxOut, low, path.dqOut[..], margins);
    assert ok == (OnDataSide(ws, start) && best.size > 0 && best.bgn <= 0);
  }

  /** Exactly when a group is deskewed for reads: every window is in reach, and the data chain is long enough. */
  lemma ReadSucceedsIff(ws: seq<Window>, start: int, maxDq: int, maxDqs: int)
    requires 0 <= maxDqs && |ws| > 0
    ensures var rs, k := RelAll(ws, start), maxDqs - start;
      ReadCentre(ws, start, maxDq, maxDqs).ok <==>
        AllMeet(rs, maxDq, k) && AllReach(rs, start, maxDq, maxDqs, NewDqs(Lowest(rs, maxDq, k), start, maxDqs))
  {
    MissingIs(RelAll(ws, start), maxDq, maxDqs - start);
  }

  /** The same for writes: every window is in reach and reaches the data side, and the first longest run of the mask
      test starts on the mask side. */
  lemma WriteSucceedsIff(ws: seq<Window>, test: MaskTest, start: int, maxOut: int)
    requires 0 <= maxOut && |ws| > 0
    ensures var rs, k := RelAll(ws, start), maxOut - start;
      var best := MaskSearch(test, WriteDelays(rs, start, maxOut, Lowest(rs, maxOut, k)), start, maxOut);
      WriteCentre(ws, test, start, maxOut).ok <==>
        AllMeet(rs, maxOut, k) && OnDataSide(ws, start) && best.size > 0 && best.bgn <= 0
  {
    MissingIs(RelAll(ws, start), maxOut, maxOut - start);
  }

  /** With every window in reach the strobe goes half way to the smallest offset. */
  lemma ReadStrobeIsHalfway(ws: seq<Window>, start: int, maxDq: int, maxDqs: int)
    requires 0 <= start <= maxDqs && |ws| > 0 && AllMeet(RelAll(ws, start), maxDq, maxDqs - start)
    ensures Halfway(Lowest(RelAll(ws, start), maxDq, maxDqs - start), start, maxDqs, ReadCentre(ws, start, maxDq, maxDqs).dqs)
  {
    var low := Lowest(RelAll(ws, start), maxDq, maxDqs - start);
    MissingIs(RelAll(ws, start), maxDq, maxDqs - start);
    NewDqsIsHalfway(low, start, maxDqs);
    ReadCentreIs(ws, start, maxDq, maxDqs, low, NewDqs(low, start, maxDqs));
  }

  // Success means that every bit works.

  /** Bits i and j have windows in reach, and j has the smallest offset. */
  predicate PinFacts(rs: seq<Window>, m: int, k: int, low: int, i: nat, j: nat)
  {
    && i < |rs| && j < |rs| && Meets(rs[i], m, k) && Meets(rs[j], m, k)
    && low == Offset(rs[j], m, k) <= Offset(rs[i], m, k)
  }

  lemma LowestPin(rs: seq<Window>, m: int, k: int, i: nat) returns (j: nat)
    requires i < |rs| && Missing(rs, m, k) >= |rs|
    ensures PinFacts(rs, m, k, Lowest(rs, m, k), i, j)
  {
    MissingIs(rs, m, k);
    LowestIsMin(rs, m, k);
    j :| 0 <= j < |rs| && Lowest(rs, m, k) == Offset(rs[j], m, k);
  }

  lemma DelayPasses(w: Window, w0: Window, maxDq: int, maxDqs: int, start: int, low: int)
    requires 0 <= maxDq && 0 <= start <= maxDqs
    requires var k := maxDqs - start;
      && Meets(Rel(w, start), maxDq, k) && Meets(w0, maxDq, k) && low == Offset(w0, maxDq, k) <= Offset(Rel(w, start), maxDq, k)
      && -Right(Rel(w, start), k) <= maxDq + (start - NewDqs(low, start, maxDqs))
    ensures var dq := ClampShift(WantedDq(Offset(Rel(w, start), maxDq, maxDqs - start), low, start, maxDqs), 0, maxDq);
      Passes(w, dq, NewDqs(low, start, maxDqs)) && 0 <= dq <= maxDq
  {
    AlignedPosition(Rel(w, start), w0, maxDq, maxDqs, start, low, 0);
  }

  lemma ReadPinWorks(ws: seq<Window>, start: int, maxDq: int, maxDqs: int, missing: nat, low: int, c: Deskewed, i: nat, j: nat)
    requires 0 <= maxDq && 0 <= start <= maxDqs && i < |ws| && (|ws| == 0 || PinFacts(RelAll(ws, start), maxDq, maxDqs - start, low, i, j))
    requires c.ok && c == ReadWith(ws, start, maxDq, maxDqs, missing, low)
    ensures |ws| == 0 || BitWorks(ws, c, maxDq, maxDqs, i)
  {
    DelayPasses(ws[i], RelAll(ws, start)[j], maxDq, maxDqs, start, low);
  }

  lemma ReadLowestPin(ws: seq<Window>, start: int, maxDq: int, maxDqs: int, low: int, i: nat) returns (j: nat)
    requires 0 <= maxDqs && i < |ws| && ReadCentre(ws, start, maxDq, maxDqs).ok
    requires low == Lowest(RelAll(ws, start), maxDq, maxDqs - start)
    ensures |ws| == 0 || PinFacts(RelAll(ws, start), maxDq, maxDqs - start, low, i, j)
  {
    j := LowestPin(RelAll(ws, start), maxDq, maxDqs - start, i);
  }

  lemma ReadBitWorks(ws: seq<Window>, start: int, maxDq: int, maxDqs: int, i: nat)
    requires 0 <= maxDq && 0 <= start <= maxDqs && i < |ws| && ReadCentre(ws, start, maxDq, maxDqs).ok
    ensures |ws| == 0 || BitWorks(ws, ReadCentre(ws, start, maxDq, maxDqs), maxDq, maxDqs, i)
  {
    var rs, k := RelAll(ws, start), maxDqs - start;
    var c, missing, low := ReadCentre(ws, start, maxDq, maxDqs), Missing(rs, maxDq, k), Lowest(rs, maxDq, k);
    var j := ReadLowestPin(ws, start, maxDq, maxDqs, low, i);
    ReadPinWorks(ws, start, maxDq, maxDqs, missing, low, c, i, j);
  }

  /** When it succeeds, every bit passes at the delays it leaves, which the chains can hold. */
  lemma ReadCentreWorks(ws: seq<Window>, start: int, maxDq: int, maxDqs: int)
    requires 0 <= maxDq && 0 <= start <= maxDqs && |ws| > 0 && ReadCentre(ws, start, maxDq, maxDqs).ok
    ensures Works(ws, ReadCentre(ws, start, maxDq, maxDqs), maxDq, maxDqs)
  {
    forall i: nat | i < |ws|
      ensures |ws| == 0 || BitWorks(ws, ReadCentre(ws, start, maxDq, maxDqs), maxDq, maxDqs, i)
    {
      ReadBitWorks(ws, start, maxDq, maxDqs, i);
    }
  }

  lemma WritePinWorks(ws: seq<Window>, test: MaskTest, start: int, maxOut: int, missing: nat, low: int, c: Deskewed, i: nat, j: nat)
    requires 0 <= start <= maxOut && i < |ws| && (|ws| == 0 || PinFacts(RelAll(ws, start), maxOut, maxOut - start, low, i, j))
    requires c.ok && c == WriteWith(ws, test, start, maxOut, missing, low)
    ensures |ws| == 0 || BitWorks(ws, c, maxOut, start, i)
  {
    OutPasses(ws[i], maxOut, start, low);
  }

  lemma WriteLowestPin(ws: seq<Window>, test: MaskTest, start: int, maxOut: int, low: int, i: nat) returns (j: nat)
    requires 0 <= maxOut && i < |ws| && WriteCentre(ws, test, start, maxOut).ok
    requires low == Lowest(RelAll(ws, start), maxOut, maxOut - start)
    ensures |ws| == 0 || PinFacts(RelAll(ws, start), maxOut, maxOut - start, low, i, j)
  {
    j := LowestPin(RelAll(ws, start), maxOut, maxOut - start, i);
  }

  lemma WriteBitWorks(ws: seq<Window>, test: MaskTest, start: int, maxOut: int, i: nat)
    requires 0 <= start <= maxOut && i < |ws| && WriteCentre(ws, test, start, maxOut).ok
    ensures |ws| == 0 || BitWorks(ws, WriteCentre(ws, test, start, maxOut), maxOut, start, i)
  {
    var rs, k := RelAll(ws, start), maxOut - start;
    var c, missing, low := WriteCentre(ws, test, start, maxOut), Missing(rs, maxOut, k), Lowest(rs, maxOut, k);
    var j := WriteLowestPin(ws, test, start, maxOut, low, i);
    WritePinWorks(ws, test, start, maxOut, missing, low, c, i, j);
  }

  /** When it succeeds, every data bit passes at the delays it leaves with the strobe where it was, and so does the
      mask. */
  lemma WriteCentreWorks(ws: seq<Window>, test: MaskTest, start: int, maxOut: int)
    requires 0 <= start <= maxOut && |ws| > 0 && WriteCentre(ws, test, start, maxOut).ok
    ensures var c := WriteCentre(ws, test, start, maxOut);
      && Works(ws, c, maxOut, start) && c.dqs == start && test(c.dq, c.dm, start) && 0 <= c.dm <= maxOut
      && (maxOut < 0 || MaskCentred(test, c.dq, start, maxOut, c.dm))
  {
    forall i: nat | i < |ws|
      ensures |ws| == 0 || BitWorks(ws, WriteCentre(ws, test, start, maxOut), maxOut, start, i)
    {
      WriteBitWorks(ws, test, start, maxOut, i);
    }
    var dq := WriteCentre(ws, test, start, maxOut).dq;
    DmVerdict(MaskAxis(test, dq, start), maxOut, maxOut - start, MaskSearch(test, dq, start, maxOut));
    MaskIsCentred(test, dq, start, maxOut);
  }

  /** What deskew reports by itself: the first bit out of reach, counted from the group's first bit. */
  function MissingReport(c: Deskewed, width: nat, first: int, stage: Stage, sub: Substage): seq<Report>
  {
    if c.missing < width then [Report(first + c.missing, stage, sub)] else []
  }

  /** The stage around it blames the group when it fails. */
  function Blamed(c: Deskewed, width: nat, w: nat, stage: Stage, sub: Substage): Outcome
  {
    Outcome(c.ok, MissingReport(c, width, Times(w, width), stage, sub) + if c.ok then [] else [Report(w, stage, sub)])
  }

  lemma BlamedIsHonest(c: Deskewed, width: nat, w: nat, stage: Stage, sub: Substage)
    requires stage != StageNil
    ensures Blamed(c, width, w, stage, sub).Honest()
  {
  }

  lemma SingleReads(p: Plan, w: nat)
    requires p.readsPerWrite == 1
    ensures p.FirstRead(w) == w && p.FirstRead(w + 1) == w + 1
  {
    TimesIsProduct(w, 1);
    TimesIsProduct(w + 1, 1);
  }

  lemma SingleRuns(p: Plan, w: nat)
    requires p.readsPerWrite == 1
    ensures p.Runs(w) <==> w < WIDTH && !p.skipGroups[w]
  {
    SingleReads(p, w);
  }

  lemma SingleGroup(p: Plan, w: nat)
    requires p.readsPerWrite == 1 && p.shadowRegs == 1 && !p.skipVfifo && !p.skipWrites && !p.skipDelaySweeps
    ensures p.GroupPasses(w) <==> p.vfifo(w).ok && (p.skipShadow(0) || p.writes(0, w).ok) && p.vfifoEnd(w).ok
  {
    SingleReads(p, w);
  }

  /** An interface with one read group per write group and one shadow register: its constants, and what decides the
      outcome of every test. */
  datatype Board = Board(
    groups: nat, width: nat,
    maxDq: int, maxDqs: int, maxOut: int,        // lengths of the delay chains
    outDelayMax: int, outPhaseMax: int,
    strobe: int,                                 // read strobe delay that calibration starts from
    outStrobe: nat -> int,                       // write strobe delay of a group
    skipGroups: Word, skipShadow: bool, skipLfifo: bool,
    guaranteed: (nat, nat) -> bool,              // per group, the n-th guaranteed read
    finds: (nat, nat) -> bool,                   // per group, the n-th phase search
    readWindows: (nat, nat) -> seq<Window>,      // per group, in the n-th attempt of the read stage
    writeWindows: nat -> seq<Window>,
    maskTests: nat -> MaskTest,
    endWindows: nat -> seq<Window>)              // of the reads after write calibration
  {
    ghost predicate Legal()
    {
      && 1 <= width <= WIDTH && 0 <= maxDqs <= maxDq && 0 <= maxOut && 0 <= strobe <= maxDqs
      && 0 <= outDelayMax && 0 <= outPhaseMax
      && (forall w, n :: |readWindows(w, n)| == width)
      && forall w :: |writeWindows(w)| == width == |endWindows(w)| && 0 <= outStrobe(w) <= maxOut
    }

    ghost predicate Runs(w: nat)
    {
      w < groups && w < WIDTH && !skipGroups[w]
    }

    /** The latency search is not to be skipped and no group is masked out. */
    ghost predicate LatencyDue()
    {
      !skipLfifo && forall r :: 0 <= r < WIDTH ==> !skipGroups[r]
    }

    /** Centring in the n-th attempt of the read stage. */
    ghost function AttemptCentre(w: nat, n: nat, v: int): VfifoStage.Centring
      requires Legal()
    {
      var c := ReadCentre(readWindows(w, n), v, maxDq, maxDqs);
      VfifoStage.Centring(c.ok, MissingReport(c, width, Times(w, width), StageVfifo, SubVfifoCenter), c.dqs)
    }

    ghost function ReadSetup(w: nat): VfifoStage.Setup
      requires Legal()
    {
      VfifoStage.Setup(outDelayMax, outPhaseMax, maxDqs, [skipShadow], (n: nat) => guaranteed(w, n), (n: nat) => finds(w, n),
                       (n: nat, sr: nat, v: int) => AttemptCentre(w, n, v))
    }

    /** The read stage of a group. */
    ghost function ReadSide(w: nat): VfifoStage.Leg
      requires Legal()
    {
      ReadSetup(w).Run(strobe)
    }

    /** Write deskew of a group. */
    ghost function WriteSide(w: nat): Deskewed
      requires Legal()
    {
      WriteCentre(writeWindows(w), maskTests(w), outStrobe(w), maxOut)
    }

    /** Read deskew after write calibration, from the strobe delay that the read stage left. */
    ghost function EndSide(w: nat): Deskewed
      requires Legal()
    {
      ReadCentre(endWindows(w), ReadSide(w).strobe, maxDq, maxDqs)
    }

    ghost function WriteOutcome(w: nat): Outcome
      requires Legal()
    {
      Blamed(WriteSide(w), width, w, StageWrites, SubWritesCenter)
    }

    ghost function EndOutcome(w: nat): Outcome
      requires Legal()
    {
      if skipShadow then PASSED else Blamed(EndSide(w), width, w, StageVfifoAfterWrites, SubVfifoCenter)
    }

    /** The plan of the orchestrator with every stage outcome derived from the windows. */
    ghost function StagePlan(): Plan
      requires Legal()
    {
      Plan(groups, 1, 1, skipGroups, (_: nat) => skipShadow, false, false, false, false, skipLfifo,
           (w: nat) => StageOutcome(ReadSetup(w), strobe, w), (_: nat, w: nat) => WriteOutcome(w), (w: nat) => EndOutcome(w))
    }

    lemma AttemptLegal(w: nat, n: nat, v: int)
      requires Legal()
      ensures 0 <= v <= maxDqs ==> 0 <= AttemptCentre(w, n, v).strobe <= maxDqs
      ensures ReadSetup(w).Named(AttemptCentre(w, n, v).log)
    {
    }

    lemma ReadSetupLegal(w: nat)
      requires Legal()
      ensures ReadSetup(w).Legal() && ReadSetup(w).CentresNamed() && 0 <= ReadSide(w).strobe <= maxDqs
    {
      var u := ReadSetup(w);
      forall n: nat, sr: nat, v: int
        ensures 0 <= v <= maxDqs ==> 0 <= u.centres(n, sr, v).strobe <= maxDqs
        ensures u.Named(u.centres(n, sr, v).log)
      {
        AttemptLegal(w, n, v);
      }
      u.RunMeans(strobe);
    }

    /** The report of a bit of group w that is out of reach, if there is one. */
    function MissingFirst(missing: nat, w: nat, stage: Stage, sub: Substage): seq<Report>
    {
      if missing < width then [Report(Times(w, width) + missing, stage, sub)] else []
    }

    /** What write deskew and the second read deskew report: the first bit out of reach, counted over the whole interface,
        and then their group; nothing if they succeed. */
    lemma StageReports(w: nat)
      requires Legal()
      ensures WriteOutcome(w).ok == WriteSide(w).ok
      ensures WriteOutcome(w).log == if WriteSide(w).ok then [] else
        MissingFirst(WriteSide(w).missing, w, StageWrites, SubWritesCenter) + [Report(w, StageWrites, SubWritesCenter)]
      ensures EndOutcome(w).ok == (skipShadow || EndSide(w).ok)
      ensures EndOutcome(w).log == if skipShadow || EndSide(w).ok then [] else
        MissingFirst(EndSide(w).missing, w, StageVfifoAfterWrites, SubVfifoCenter) + [Report(w, StageVfifoAfterWrites, SubVfifoCenter)]
    {
      WriteOkMissing(w);
      EndOkMissing(w);
      BlamedLog(WriteSide(w), w, StageWrites, SubWritesCenter);
      BlamedLog(EndSide(w), w, StageVfifoAfterWrites, SubVfifoCenter);
    }

    lemma WriteOkMissing(w: nat)
      requires Legal()
      ensures WriteSide(w).ok ==> WriteSide(w).missing >= width
    {
    }

    lemma EndOkMissing(w: nat)
      requires Legal()
      ensures EndSide(w).ok ==> EndSide(w).missing >= width
    {
    }

    lemma BlamedLog(c: Deskewed, w: nat, stage: Stage, sub: Substage)
      requires c.ok ==> c.missing >= width
      ensures Blamed(c, width, w, stage, sub).ok == c.ok
      ensures Blamed(c, width, w, stage, sub).log
           == if c.ok then [] else MissingFirst(c.missing, w, stage, sub) + [Report(w, stage, sub)]
    {
    }

    lemma SameLatencyDue()
      requires Legal()
      ensures StagePlan().LatencyDue() == LatencyDue()
    {
    }

    /** Every stage is a stage as the orchestrator expects it. */
    lemma PlanIsHonest()
      requires Legal()
      ensures StagePlan().Honest()
    {
      forall w: nat
        ensures StagePlan().vfifo(w).Honest() && WriteOutcome(w).Honest() && EndOutcome(w).Honest()
      {
        ReadSetupLegal(w);
        StageIsHonest(ReadSetup(w), strobe, w);
        BlamedIsHonest(WriteSide(w), width, w, StageWrites, SubWritesCenter);
        BlamedIsHonest(EndSide(w), width, w, StageVfifoAfterWrites, SubVfifoCenter);
      }
    }

    /** The stages of a group succeed. */
    ghost predicate GroupOk(w: nat)
      requires Legal()
    {
      ReadSide(w).ok && (skipShadow || (WriteSide(w).ok && EndSide(w).ok))
    }

    lemma OneReadGroup(w: nat)
      requires Legal()
      ensures w < groups && StagePlan().Runs(w) <==> Runs(w)
      ensures StagePlan().GroupPasses(w) <==> GroupOk(w)
    {
      var p := StagePlan();
      SingleRuns(p, w);
      SingleGroup(p, w);
      assert p.vfifo(w).ok == ReadSide(w).ok && p.writes(0, w).ok == WriteSide(w).ok;
    }

    /** The groups pass calibration, in either mode, iff in every group that runs the read stage succeeds, and write
        deskew and the second read deskew do. */
    lemma GroupsPassIff(sweep: bool)
      requires Legal()
      ensures StagePlan().Groups(0, sweep).ok <==> forall w: nat :: Runs(w) ==> GroupOk(w)
      ensures StagePlan().AllPass() <==> StagePlan().Groups(0, sweep).ok
    {
      var p := StagePlan();
      PlanIsHonest();
      p.GroupsVerdict(0, sweep);
      forall w: nat
        ensures w < groups && p.Runs(w) <==> Runs(w)
        ensures p.GroupPasses(w) <==> GroupOk(w)
      {
        OneReadGroup(w);
      }
    }

    /** Every bit of a group reads at the delays left by the last deskew. */
    ghost predicate Reads(w: nat)
      requires Legal()
    {
      Works(endWindows(w), EndSide(w), maxDq, maxDqs)
    }

    /** Every bit of a group and its mask write at the delays left by write deskew, the strobe where it was and
        the mask in the middle of its window. */
    ghost predicate Writes(w: nat)
      requires Legal()
    {
      var c := WriteSide(w);
      && Works(writeWindows(w), c, maxOut, outStrobe(w)) && c.dqs == outStrobe(w)
      && maskTests(w)(c.dq, c.dm, outStrobe(w)) && 0 <= c.dm <= maxOut
      && MaskCentred(maskTests(w), c.dq, outStrobe(w), maxOut, c.dm)
    }

    /** Every group that runs passes. */
    ghost predicate AllOk()
      requires Legal()
    {
      forall w: nat :: Runs(w) ==> GroupOk(w)
    }

    /** Every group that runs works. */
    ghost predicate AllWork()
      requires Legal()
    {
      forall w: nat :: Runs(w) ==> Reads(w) && Writes(w)
    }

    lemma EndWorks(w: nat)
      requires Legal() && EndSide(w).ok
      ensures Reads(w)
    {
      ReadSetupLegal(w);
      ReadCentreWorks(endWindows(w), ReadSide(w).strobe, maxDq, maxDqs);
    }

    lemma WriteWorks(w: nat)
      requires Legal() && WriteSide(w).ok
      ensures Writes(w)
    {
      WriteCentreWorks(writeWindows(w), maskTests(w), outStrobe(w), maxOut);
    }

    /** A calibration that passes leaves every group that runs working. */
    lemma PassingBoardWorks()
      requires Legal() && StagePlan().AllPass() && !skipShadow
      ensures AllWork()
    {
      GroupsPassIff(false);
      forall w: nat | Runs(w)
        ensures skipShadow || (Reads(w) && Writes(w))
      {
        EndWorks(w);
        WriteWorks(w);
      }
    }

    lemma Verdicts()
      requires Legal()
      ensures StagePlan().AllPass() == AllOk() && StagePlan().LatencyDue() == LatencyDue() && !StagePlan().skipAll
      ensures !AllOk() || skipShadow || AllWork()
    {
      GroupsPassIff(false);
      SameLatencyDue();
      if AllOk() && !skipShadow {
        PassingBoardWorks();
      }
    }
  }

  // The stages in place.

  /** Read deskew of a group, its delay chains starting at pin 0: the registers end up as ReadCentre says. */
  method DeskewReads(path: ReadPath, gbl: Gbl, ws: seq<Window>, g: nat, first: nat, useReadTest: bool, updateFom: bool)
    returns (ok: bool)
    requires path.Valid() && path.Wired() && |ws| == path.width <= path.ioIn.Length && g < path.dqsIn.Length
    requires InChain(path.ioIn[..], path.maxDq) && 0 <= path.dqsIn[g] <= path.maxDqs <= path.maxDq
    modifies path.ioIn, path.dqsIn, gbl`error, gbl`fomIn
    ensures var c := ReadCentre(ws, old(path.dqsIn[g]), path.maxDq, path.maxDqs);
      && ok == c.ok && path.dqsIn[..] == old(path.dqsIn[..])[g := c.dqs]
      && path.ioIn[path.width..] == old(path.ioIn[path.width..]) && (c.missing == |ws| ==> path.ioIn[..path.width] == c.dq)
      && gbl.error == Recorded(old(gbl.error), MissingReport(c, path.width, first,
           if useReadTest then StageVfifo else StageVfifoAfterWrites, SubVfifoCenter))
  {
    ghost var start, a := path.dqsIn[g], path.ioIn[..];
    ghost var dq, low, margins, missing;
    ok, dq, low, margins, missing := path.VfifoCenter(gbl, ws, 0, g, first, useReadTest, updateFom);
    VfifoCenterIs(ws, start, path.maxDq, path.maxDqs, low, a, dq, path.dqsIn[g], margins, ok, missing);
  }

  /** The second read deskew of group w in place: `rw_mgr_mem_calibrate_vfifo_end`. */
  method CalibrateEnd(b: Board, w: nat, path: ReadPath, gbl: Gbl, g: nat) returns (ok: bool)
    requires b.Legal() && path.Valid() && path.Wired() && path.width == b.width && path.maxDq == b.maxDq && path.maxDqs == b.maxDqs
    requires path.width <= path.ioIn.Length && InChain(path.ioIn[..], path.maxDq) && g < path.dqsIn.Length
    requires path.dqsIn[g] == b.ReadSide(w).strobe
    modifies path.ioIn, path.dqsIn, gbl`error, gbl`fomIn
    ensures Outcome(ok, b.EndOutcome(w).log) == b.EndOutcome(w) && gbl.error == Recorded(old(gbl.error), b.EndOutcome(w).log)
    ensures ok && !b.skipShadow ==>
      path.ioIn[..path.width] == b.EndSide(w).dq && path.dqsIn[g] == b.EndSide(w).dqs && b.Reads(w)
  {
    b.ReadSetupLegal(w);
    ok := true;
    if !b.skipShadow {
      var first := Times(w, b.width);
      TimesMono(0, w, b.width);
      ok := DeskewReads(path, gbl, b.endWindows(w), g, first, false, true);
      if ok {
        b.EndWorks(w);
      }
    }
    ghost var c := b.EndSide(w);
    if !ok {
      RecordedAppend(old(gbl.error), MissingReport(c, b.width, Times(w, b.width), StageVfifoAfterWrites, SubVfifoCenter),
                     [Report(w, StageVfifoAfterWrites, SubVfifoCenter)]);
      gbl.SetFailingGroupStage(w, StageVfifoAfterWrites, SubVfifoCenter);
    }
  }

  /** Write deskew of a group: the registers end up as WriteCentre says. */
  method DeskewWrites(path: WritePath, gbl: Gbl, ws: seq<Window>, first: nat) returns (ok: bool)
    requires path.Valid() && path.Wired() && |ws| == path.width == path.dqOut.Length && 0 <= path.dqsOut <= path.maxOut
    modifies path, path.dqOut, gbl`error, gbl`fomOut
    ensures var c := WriteCentre(ws, path.dmTest, old(path.dqsOut), path.maxOut);
      && ok == c.ok
      && (c.missing == |ws| ==> path.dqOut[..] == c.dq && path.dqsOut == c.dqs && path.dmOut == c.dm)
      && gbl.error == Recorded(old(gbl.error), MissingReport(c, path.width, first, StageWrites, SubWritesCenter))
  {
    var start := path.dqsOut;
    ghost var low, margins, best, missing;
    ok, low, margins, best, missing := path.WritesCenter(gbl, ws, first);
    if missing == |ws| {
      FinishedIsWriteCentre(path, ws, start, low, margins, best, ok);
    } else {
      MissingIsOnly(RelAll(ws, start), path.maxOut, path.maxOut - start, missing);
    }
  }

  /** Write calibration of group w in place: `rw_mgr_mem_calibrate_writes`. */
  method CalibrateWrites(b: Board, w: nat, path: WritePath, gbl: Gbl) returns (ok: bool)
    requires b.Legal() && path.Valid() && path.Wired() && path.width == b.width == path.dqOut.Length && path.maxOut == b.maxOut
    requires path.dmTest == b.maskTests(w) && path.dqsOut == b.outStrobe(w)
    modifies path, path.dqOut, gbl`error, gbl`fomOut
    ensures Outcome(ok, b.WriteOutcome(w).log) == b.WriteOutcome(w) && gbl.error == Recorded(old(gbl.error), b.WriteOutcome(w).log)
    ensures ok ==>
      && path.dqOut[..] == b.WriteSide(w).dq && path.dqsOut == b.WriteSide(w).dqs && path.dmOut == b.WriteSide(w).dm
      && b.Writes(w)
  {
    var first := Times(w, b.width);
    TimesMono(0, w, b.width);
    ok := DeskewWrites(path, gbl, b.writeWindows(w), first);
    if ok {
      b.WriteWorks(w);
    } else {
      RecordedAppend(old(gbl.error), MissingReport(b.WriteSide(w), b.width, first, StageWrites, SubWritesCenter),
                     [Report(w, StageWrites, SubWritesCenter)]);
      gbl.SetFailingGroupStage(w, StageWrites, SubWritesCenter);
    }
  }

  /** The whole calibration over the stages of a board. */
  method CalibrateBoard(b: Board, s: Sequencer, readLat: int) returns (ok: bool)
    requires b.Legal() && s.plan == b.StagePlan() && 0 <= readLat < U32
    modifies s, s.gbl, s.phy
    ensures ok == (b.AllOk() && (b.LatencyDue() ==> s.phy.passes(readLat)))
    ensures !(ok && b.LatencyDue()) || Lfifo.StoppedAt(s.phy.passes, s.phy.Top(readLat), ToU32(s.gbl.currReadLat - 2))
    ensures (ok && b.LatencyDue()) || s.gbl.currReadLat == readLat
    ensures !ok || b.skipShadow || b.AllWork()
    ensures !ok || (s.gbl.error == NO_ERROR) == b.StagePlan().AllSilent()
  {
    b.PlanIsHonest();
    b.Verdicts();
    ok := s.Calibrate(readLat);
  }
}
