/** Write per-bit deskew and data-mask centring: `rw_mgr_mem_calibrate_writes_center`. */
module WriteDeskew {
  import opened Words
  import opened Deskew
  import opened CalGlobals
  import opened DmSearch
  import BitCheck

  /** The data delays before clamping: the strobe is not moved. */
  function WantedOut(rs: seq<Window>, maxOut: int, low: int, start: int): seq<int>
  {
    seq(|rs|, i requires 0 <= i < |rs| => Shift(Offset(rs[i], maxOut, maxOut - start), low, HalfOffset(low)))
  }

  /** What the data half leaves: aligned delays, both margins, and the half verdict. */
  ghost predicate CentredOut(rs: seq<Window>, start: int, maxOut: int, low: int, dq: seq<int>, margins: (int, int))
    requires 0 <= maxOut
  {
    && |dq| == |rs|
    && IsMinOffset(rs, maxOut, maxOut - start, low)
    && (forall i :: 0 <= i < |rs| ==> dq[i] == Clamp(Centre(Offset(rs[i], maxOut, maxOut - start), low), 0, maxOut))
    && IsLeast(margins.0, LeftMargins(rs, maxOut, dq, 0), maxOut + 1)
    && IsLeast(margins.1, RightMargins(rs, maxOut - start, dq, 0), maxOut + 1)
  }

  lemma WantedOutIsShift(rs: seq<Window>, l: seq<int>, r: seq<int>, maxOut: int, low: int, start: int)
    requires TrueEdges(rs, maxOut, maxOut - start, l, r)
    ensures IsShift(WantedOut(rs, maxOut, low, start), l, r, low, HalfOffset(low))
  {
  }

  lemma MakeCentredOut(rs: seq<Window>, start: int, maxOut: int, low: int, wanted: seq<int>, l: seq<int>, r: seq<int>,
                       dq: seq<int>, margins: (int, int), at: (int, int))
    requires 0 <= maxOut && |rs| == |l| == |dq| && wanted == WantedOut(rs, maxOut, low, start)
    requires Aligned(wanted, l, r, Same(|rs|, 0), dq, 0, maxOut, 0, margins, at)
    requires TrueEdges(rs, maxOut, maxOut - start, l, r) && IsMinOffset(rs, maxOut, maxOut - start, low)
    ensures CentredOut(rs, start, maxOut, low, dq, margins)
  {
    var lefts, rights := LeftMargins(rs, maxOut, dq, 0), RightMargins(rs, maxOut - start, dq, 0);
    assert 0 <= at.0 ==> lefts[at.0] == margins.0;
    assert 0 <= at.1 ==> rights[at.1] == margins.1;
    forall i | 0 <= i < |rs|
      ensures dq[i] == Clamp(Centre(Offset(rs[i], maxOut, maxOut - start), low), 0, maxOut)
    {
      assert dq[i] == ClampShift(wanted[i], OtherDelay(Same(|rs|, 0), 0, dq, i), maxOut);
    }
  }

  lemma OutPosition(w: Window, m: int, k: int, low: int)
    requires 0 <= k && 0 <= m && Meets(w, m, k) && low <= Offset(w, m, k)
    ensures var dq := Clamp(Centre(Offset(w, m, k), low), 0, m);
      -Right(w, k) <= dq && (dq <= Left(w, m) <==> w.hi >= 0)
  {
    CentreIsCentred(w, m, k, low);
  }

  /** Because the strobe stays where it is, the data pins calibrate exactly when every window reaches a
      position on the data side; then every bit passes at the programmed delays. */
  lemma DataSucceedsIff(ws: seq<Window>, rs: seq<Window>, start: int, maxOut: int, low: int, dq: seq<int>, margins: (int, int))
    requires rs == RelAll(ws, start) && 0 <= start <= maxOut && AllMeet(rs, maxOut, maxOut - start)
    requires CentredOut(rs, start, maxOut, low, dq, margins)
    ensures margins.0 >= 0 && margins.1 >= 0 <==> forall i :: 0 <= i < |rs| ==> rs[i].hi >= 0
    ensures margins.0 >= 0 && margins.1 >= 0 ==> forall i :: 0 <= i < |ws| ==> Passes(ws[i], dq[i], start)
  {
    forall i | 0 <= i < |rs|
      ensures -Right(rs[i], maxOut - start) <= dq[i] <= Left(rs[i], maxOut) <==> rs[i].hi >= 0
      ensures rs[i].hi >= 0 ==> Passes(ws[i], dq[i], start)
    {
      OutPinPasses(ws, rs, start, maxOut, low, dq, margins, i);
    }
    MarginsOk(rs, maxOut, maxOut - start, dq, 0, margins);
  }

  /** Every data bit sits in the middle of its clipped window, within one tap, or at delay 0 when the middle is not
      on the data side. */
  predicate OutCentred(rs: seq<Window>, start: int, maxOut: int, dq: seq<int>)
    requires |dq| == |rs|
  {
    forall i :: 0 <= i < |rs| ==>
      var gap := (Left(rs[i], maxOut) - dq[i]) - (Right(rs[i], maxOut - start) + dq[i]);
      0 <= dq[i] && gap <= 1 && (dq[i] > 0 ==> -1 <= gap)
  }

  lemma OutPinCentred(w: Window, m: int, k: int, low: int)
    requires 0 <= k && 0 <= m && Meets(w, m, k) && low <= Offset(w, m, k)
    ensures var dq := Clamp(Centre(Offset(w, m, k), low), 0, m);
      var gap := (Left(w, m) - dq) - (Right(w, k) + dq);
      0 <= dq && gap <= 1 && (dq > 0 ==> -1 <= gap)
  {
    CentreIsCentred(w, m, k, low);
  }

  lemma OutIsCentred(rs: seq<Window>, start: int, maxOut: int, low: int, dq: seq<int>, margins: (int, int))
    requires 0 <= start <= maxOut && (maxOut < 0 || AllMeet(rs, maxOut, maxOut - start))
    requires maxOut < 0 || CentredOut(rs, start, maxOut, low, dq, margins)
    ensures |dq| == |rs| && (maxOut < 0 || OutCentred(rs, start, maxOut, dq))
  {
    forall i | 0 <= i < |rs|
      ensures var gap := (Left(rs[i], maxOut) - dq[i]) - (Right(rs[i], maxOut - start) + dq[i]);
        0 <= dq[i] && gap <= 1 && (dq[i] > 0 ==> -1 <= gap)
    {
      OutPinCentred(rs[i], maxOut, maxOut - start, low);
    }
  }

  lemma OutPinPasses(ws: seq<Window>, rs: seq<Window>, start: int, maxOut: int, low: int, dq: seq<int>,
                     margins: (int, int), i: nat)
    requires rs == RelAll(ws, start) && 0 <= start <= maxOut && AllMeet(rs, maxOut, maxOut - start) && i < |rs|
    requires CentredOut(rs, start, maxOut, low, dq, margins)
    ensures -Right(rs[i], maxOut - start) <= dq[i] <= Left(rs[i], maxOut) <==> rs[i].hi >= 0
    ensures rs[i].hi >= 0 ==> Passes(ws[i], dq[i], start)
  {
    assert rs[i] == Rel(ws[i], start) && low <= Offset(rs[i], maxOut, maxOut - start);
    OutPasses(ws[i], maxOut, start, low);
  }

  lemma OutPasses(w: Window, m: int, start: int, low: int)
    requires 0 <= start <= m && Meets(Rel(w, start), m, m - start) && low <= Offset(Rel(w, start), m, m - start)
    ensures var r := Rel(w, start); var dq := Clamp(Centre(Offset(r, m, m - start), low), 0, m);
      && (-Right(r, m - start) <= dq <= Left(r, m) <==> r.hi >= 0)
      && (r.hi >= 0 ==> Passes(w, dq, start))
  {
    OutPosition(Rel(w, start), m, m - start, low);
  }

  /** A mask test at (data delays, mask delay, strobe delay). */
  type MaskTest = (seq<int>, int, int) -> bool

  /** The mask test along the joined axis of the mask search. */
  function MaskAxis(test: MaskTest, dq: seq<int>, start: int): Axis
  {
    t => if t <= 0 then test(dq, -t, start) else test(dq, 0, start + t)
  }

  /** The answer of the plain search over the whole axis. */
  function MaskSearch(test: MaskTest, dq: seq<int>, start: int, maxOut: int): BestRun
  {
    Answer(Scan(MaskAxis(test, dq, start), -maxOut, maxOut - start, maxOut + 1))
  }

  /** A mask delay that stands in the middle of the first longest run of passing mask tests, where a position t <= 0 is
      a mask delay of -t and a position t > 0 a strobe shift by t without mask delay. */
  ghost predicate MaskCentred(test: MaskTest, dq: seq<int>, start: int, maxOut: int, dm: int)
  {
    forall pass: Axis :: IsMaskAxis(pass, test, dq, start) ==>
      exists b, e :: FirstLongest(pass, -maxOut, maxOut - start, b, e) && InMiddle(b, e, dm)
  }

  ghost predicate IsMaskAxis(pass: Axis, test: MaskTest, dq: seq<int>, start: int)
  {
    forall t :: pass(t) <==> if t <= 0 then test(dq, -t, start) else test(dq, 0, start + t)
  }

  /** The search finds the first longest run of any such axis. */
  lemma MaskSearchFinds(pass: Axis, test: MaskTest, dq: seq<int>, start: int, maxOut: int)
    requires 0 <= start <= maxOut && IsMaskAxis(pass, test, dq, start)
    ensures Found(pass, -maxOut, maxOut - start, MaskSearch(test, dq, start, maxOut), maxOut + 1)
  {
    var axis := MaskAxis(test, dq, start);
    ScanFinds(axis, -maxOut, maxOut - start, maxOut + 1);
    assert forall t :: pass(t) == axis(t);
    SameFound(axis, pass, -maxOut, maxOut - start, MaskSearch(test, dq, start, maxOut), maxOut + 1);
  }

  lemma SameFound(a: Axis, b: Axis, lo: int, hi: int, r: BestRun, illegal: int)
    requires (forall t :: a(t) == b(t)) && Found(a, lo, hi, r, illegal)
    ensures Found(b, lo, hi, r, illegal)
  {
    if r.size != 0 {
      forall b', e' | lo <= b' && e' <= hi && Run(b, b', e')
        ensures e' - b' < r.end - r.bgn || (e' - b' == r.end - r.bgn && r.bgn <= b')
      {
        assert Run(a, b', e');
      }
    }
  }

  /** What is programmed from a search that found a run. */
  lemma MaskIsCentred(test: MaskTest, dq: seq<int>, start: int, maxOut: int)
    requires 0 <= start <= maxOut && MaskSearch(test, dq, start, maxOut).size > 0
    ensures MaskCentred(test, dq, start, maxOut, DmMid(MaskSearch(test, dq, start, maxOut)))
  {
    var r := MaskSearch(test, dq, start, maxOut);
    DmMidIsMiddle(r);
    forall pass: Axis | IsMaskAxis(pass, test, dq, start)
      ensures exists b, e :: FirstLongest(pass, -maxOut, maxOut - start, b, e) && InMiddle(b, e, DmMid(r))
    {
      MaskSearchFinds(pass, test, dq, start, maxOut);
      assert FirstLongest(pass, -maxOut, maxOut - start, r.bgn, r.end) && InMiddle(r.bgn, r.end, DmMid(r));
    }
  }

  class WritePath {
    const maxOut: int                          // IO_IO_OUT1_DELAY_MAX
    const vgs: nat                             // virtual groups per write DQS
    const pinsPerVg: nat
    const width: nat                           // DQ pins per write DQS
    const dmTest: MaskTest                     // outcome of the mask test
    const dqOut: array<int>                    // output delay of every data pin of the group
    var dqsOut: int                            // output delay of the strobe
    var octOut: int                            // output delay of the termination control
    var dmOut: int                             // output delay of the mask pin

    predicate Valid()
    {
      0 <= maxOut && 1 <= width <= WIDTH
    }

    /** The virtual groups make up the group. */
    predicate Wired()
    {
      vgs >= 1 && pinsPerVg >= 1 && width == vgs * pinsPerVg
    }

    function AxisOf(dq: seq<int>, start: int): Axis
    {
      MaskAxis(dmTest, dq, start)
    }

    /** A write test of the group at the programmed delays. */
    method Probe(ws: seq<Window>) returns (bitChk: Word, one: bool)
      requires Valid() && Wired() && |ws| == dqOut.Length == width
      ensures forall i :: 0 <= i < WIDTH ==> (bitChk[i] <==> i < width && Passes(ws[i], dqOut[i], dqsOut))
      ensures !one ==> forall i :: 0 <= i < width ==> !bitChk[i]
    {
      var dq, dqs := dqOut[..], dqsOut;
      var err := (r: nat, vg: nat) => ErrorsOf(ws, dq, dqs, vg * pinsPerVg);
      bitChk, one := BitCheck.BitTest(err, [false], 0, 1, vgs, pinsPerVg, false);
      forall i | 0 <= i < width
        ensures BitCheck.BitGood(err, [false], 0, 1, vgs, pinsPerVg, i) <==> Passes(ws[i], dq[i], dqs)
      {
        AssembledBit(err, ws, dq, dqs, vgs, pinsPerVg, i);
      }
    }

    method ApplyGroupDqOut(delay: int)
      requires dqOut.Length == width
      modifies dqOut
      ensures dqOut[..] == Same(width, delay)
    {
      for i := 0 to width
        invariant dqOut.Length == width && forall j :: 0 <= j < i ==> dqOut[j] == delay
      {
        dqOut[i] := delay;
      }
    }

    method ApplyStrobe(delay: int)
      modifies this`dqsOut, this`octOut
      ensures dqsOut == octOut == delay
    {
      dqsOut := delay;
      octOut := delay;
    }

    /** First sweep: delay all data pins together; leave them at zero. */
    method SweepDq(ws: seq<Window>) returns (left: seq<int>, right: seq<int>, ghost sticky': Word)
      requires Valid() && Wired() && |ws| == dqOut.Length == width
      modifies dqOut
      ensures dqOut[..] == Same(width, 0)
      ensures DqState(RelAll(ws, dqsOut), maxOut, maxOut + 1, left, right, sticky')
    {
      left := Same(width, maxOut + 1);
      right := Same(width, maxOut + 1);
      var sticky := ZERO;
      ghost var rs := RelAll(ws, dqsOut);
      var d := 0;
      while d <= maxOut
        invariant 0 <= d <= maxOut + 1 && dqOut.Length == width
        invariant DqState(rs, maxOut, d, left, right, sticky)
      {
        ApplyGroupDqOut(d);
        var bitChk, one := Probe(ws);
        BitsAtDq(ws, dqsOut, width, d, bitChk);
        if !one && Or(sticky, bitChk) == Mask(width) {
          DqStop(rs, maxOut, d, left, right, sticky, bitChk);
          break;
        }
        var left', right' := RecordDq(bitChk, d, maxOut + 1, left, right);
        DqTap(rs, maxOut, d, left, right, sticky, bitChk, left', right', Or(sticky, bitChk));
        left, right, sticky := left', right', Or(sticky, bitChk);
        d := d + 1;
      }
      sticky' := sticky;
      ApplyGroupDqOut(0);
    }

    /** Between the sweeps: a right edge without a left edge is dropped.  Unlike the read side, every bit
        with a left edge counts as seen. */
    method ResetEdges(left: seq<int>, right0: seq<int>) returns (right: seq<int>, sticky: Word)
      requires |left| == |right0| == width <= WIDTH
      ensures |right| == width
      ensures forall i :: 0 <= i < width ==> right[i] == if left[i] == maxOut + 1 then maxOut + 1 else right0[i]
      ensures forall i :: 0 <= i < WIDTH ==> (sticky[i] <==> i < width && left[i] != maxOut + 1)
    {
      right, sticky := right0, ZERO;
      var i := width;
      while i > 0
        invariant 0 <= i <= width && |right| == width
        invariant forall j :: 0 <= j < i ==> right[j] == right0[j]
        invariant forall j :: i <= j < width ==> right[j] == if left[j] == maxOut + 1 then maxOut + 1 else right0[j]
        invariant forall j :: 0 <= j < WIDTH ==> (sticky[j] <==> j + i < width && left[j + i] != maxOut + 1)
      {
        i := i - 1;
        if left[i] == maxOut + 1 && right[i] != maxOut + 1 {
          right := right[i := maxOut + 1];
        }
        sticky := Shl(sticky, 1);
        if left[i] != maxOut + 1 {
          sticky := Or(sticky, Mask(1));
        }
      }
    }

    /** The extra step when the strobe sweep stops at its first tap: a bit that passed before but has no
        right edge is marginal. */
    method MarkMarginal(left: seq<int>, right0: seq<int>) returns (right: seq<int>)
      requires |left| == |right0| == width
      ensures |right| == width
      ensures forall i :: 0 <= i < width ==>
        right[i] == if right0[i] == maxOut + 1 && left[i] != maxOut + 1 then -1 else right0[i]
    {
      right := right0;
      for i := 0 to width
        invariant |right| == width
        invariant forall j :: 0 <= j < i ==>
          right[j] == if right0[j] == maxOut + 1 && left[j] != maxOut + 1 then -1 else right0[j]
        invariant forall j :: i <= j < width ==> right[j] == right0[j]
      {
        if right[i] == maxOut + 1 && left[i] != maxOut + 1 {
          right := right[i := -1];
        }
      }
    }

    /** Second sweep: delay the strobe upward from its starting value. */
    method SweepDqs(ws: seq<Window>, start: int, seen: Word, left0: seq<int>, right0: seq<int>)
      returns (left: seq<int>, right: seq<int>)
      requires Valid() && Wired() && |ws| == width && dqOut[..] == Same(width, 0) && 0 <= start <= maxOut
      requires DqsEdges(RelAll(ws, start), maxOut, 0, left0, right0)
      requires SeenBits(RelAll(ws, start), maxOut, 0, seen)
      modifies this`dqsOut, this`octOut
      ensures DqsEdges(RelAll(ws, start), maxOut, maxOut - start + 1, left, right)
    {
      left, right := left0, right0;
      var sticky := seen;
      ghost var rs := RelAll(ws, start);
      var d := 0;
      while d <= maxOut - start
        invariant 0 <= d <= maxOut - start + 1
        invariant DqsEdges(rs, maxOut, d, left, right) && SeenBits(rs, maxOut, d, sticky)
      {
        ApplyStrobe(d + start);
        var bitChk, one := Probe(ws);
        BitsAtDqs(ws, start, width, d, bitChk);
        if !one && Or(sticky, bitChk) == Mask(width) {
          SeenStop(rs, maxOut, maxOut - start, d, left, right, sticky, bitChk);
          if d == 0 {
            right := MarkMarginal(left, right);
          }
          break;
        }
        var left', right' := RecordDqs(bitChk, d, maxOut + 1, left, right);
        DqsTapEdges(rs, maxOut, d, left, right, bitChk, left', right');
        SeenTap(rs, maxOut, d, sticky, bitChk);
        left, right, sticky := left', right', Or(sticky, bitChk);
        d := d + 1;
      }
    }

    /** Both sweeps. */
    method FindEdges(ws: seq<Window>, start: int) returns (left: seq<int>, right: seq<int>)
      requires Valid() && Wired() && |ws| == dqOut.Length == width && 0 <= start == dqsOut <= maxOut
      modifies dqOut, this`dqsOut, this`octOut
      ensures dqOut[..] == Same(width, 0)
      ensures |left| == |right| == width && EdgesFound(RelAll(ws, start), maxOut, maxOut - start, left, right)
    {
      ghost var rs, st := RelAll(ws, start), ZERO;
      left, right, st := SweepDq(ws);
      var seen;
      right, seen := ResetEdges(left, right);
      assert DqsEdges(rs, maxOut, 0, left, right) && SeenBits(rs, maxOut, 0, seen);
      left, right := SweepDqs(ws, start, seen, left, right);
      forall i | 0 <= i < width
        ensures EdgeFound(rs[i], maxOut, maxOut - start, left[i], right[i])
      {
        SearchIsExact(rs[i], maxOut, maxOut - start);
      }
    }

    /** One round of the centring loop. */
    method CentreOne(ghost wanted: seq<int>, i: nat, left: seq<int>, right: seq<int>, minIndex: nat, origMidMin: int,
                     dqMargin0: int, dqsMargin0: int, ghost at0: (int, int))
      returns (dqMargin: int, dqsMargin: int, ghost at: (int, int))
      requires 0 <= maxOut && |wanted| == |left| == |right| == dqOut.Length == width && i < width && minIndex < width
      requires dqOut[i] == 0
      requires wanted[i] == Shift(left[i] - right[i], left[minIndex] - right[minIndex], origMidMin)
      requires Aligned(wanted, left, right, Same(width, 0), dqOut[..i], 0, maxOut, 0, (dqMargin0, dqsMargin0), at0)
      modifies dqOut
      ensures dqOut.Length == width && dqOut[i + 1..] == old(dqOut[i + 1..])
      ensures Aligned(wanted, left, right, Same(width, 0), dqOut[..i + 1], 0, maxOut, 0, (dqMargin, dqsMargin), at)
    {
      dqMargin, dqsMargin, at := dqMargin0, dqsMargin0, at0;
      ghost var dq := dqOut[..i];
      var shiftDq := Half(left[i] - right[i] - (left[minIndex] - right[minIndex])) + origMidMin;
      if shiftDq + dqOut[i] > maxOut {
        shiftDq := maxOut - dqOut[i];
      } else if shiftDq + dqOut[i] < 0 {
        shiftDq := -dqOut[i];
      }
      dqOut[i] := dqOut[i] + shiftDq;
      if left[i] - shiftDq < dqMargin {
        dqMargin := left[i] - shiftDq;
        at := (i, at.1);
      }
      if right[i] + shiftDq < dqsMargin {
        dqsMargin := right[i] + shiftDq;
        at := (at.0, i);
      }
      AlignedStep(wanted, left, right, Same(width, 0), dq, 0, maxOut, 0, (dqMargin0, dqsMargin0), at0, shiftDq,
                  (dqMargin, dqsMargin), at);
      assert dqOut[..i + 1] == dq + [shiftDq];
    }

    /** The centring loop. */
    method AlignDq(ghost wanted: seq<int>, left: seq<int>, right: seq<int>, minIndex: nat, origMidMin: int)
      returns (dqMargin: int, dqsMargin: int, ghost at: (int, int))
      requires Valid() && |wanted| == |left| == |right| == width && minIndex < width && dqOut[..] == Same(width, 0)
      requires IsShift(wanted, left, right, left[minIndex] - right[minIndex], origMidMin)
      modifies dqOut
      ensures dqOut.Length == width
      ensures Aligned(wanted, left, right, Same(width, 0), dqOut[..], 0, maxOut, 0, (dqMargin, dqsMargin), at)
    {
      at := (-1, -1);
      dqMargin, dqsMargin := maxOut + 1, maxOut + 1;
      ghost var zeros := Same(width, 0);
      assert dqOut[..0] == [];
      for i := 0 to width
        invariant dqOut.Length == width && dqOut[i..] == zeros[i..]
        invariant Aligned(wanted, left, right, zeros, dqOut[..i], 0, maxOut, 0, (dqMargin, dqsMargin), at)
      {
        assert dqOut[i] == dqOut[i..][0] == 0;
        assert dqOut[i..][1..] == dqOut[i + 1..] && zeros[i..][1..] == zeros[i + 1..];
        dqMargin, dqsMargin, at := CentreOne(wanted, i, left, right, minIndex, origMidMin, dqMargin, dqsMargin, at);
      }
      assert dqOut[..width] == dqOut[..];
    }

    method HalfOfLowest(low: int) returns (midMin: int)
      ensures midMin == HalfOffset(low)
    {
      midMin := low;
      if midMin > 0 {
        midMin := midMin + 1;
      }
      midMin := Half(midMin);
    }

    /** The data half after the sweeps: align every bit, leave the strobe at its starting value. */
    method CentreDq(ghost rs: seq<Window>, start: int, left: seq<int>, right: seq<int>)
      returns (dqMargin: int, dqsMargin: int, ghost low: int)
      requires Valid() && |rs| == width && 0 <= start <= maxOut && dqOut[..] == Same(width, 0)
      requires TrueEdges(rs, maxOut, maxOut - start, left, right)
      modifies dqOut, this`dqsOut, this`octOut
      ensures dqsOut == octOut == start
      ensures CentredOut(rs, start, maxOut, low, dqOut[..], (dqMargin, dqsMargin))
    {
      var midMin, minIndex := FindLowest(rs, maxOut, maxOut - start, left, right);
      low := midMin;
      midMin := HalfOfLowest(midMin);
      ghost var wanted, at := WantedOut(rs, maxOut, low, start), (-1, -1);
      WantedOutIsShift(rs, left, right, maxOut, low, start);
      dqMargin, dqsMargin, at := AlignDq(wanted, left, right, minIndex, midMin);
      ghost var dq := dqOut[..];
      MakeCentredOut(rs, start, maxOut, low, wanted, left, right, dq, (dqMargin, dqsMargin), at);
      ApplyStrobe(start);
      assert dqOut[..] == dq;
    }

    function FullSearch(dq: seq<int>, start: int): BestRun
    {
      MaskSearch(dmTest, dq, start, maxOut)
    }

    /** First half of the mask search: mask delay from the maximum down to zero. */
    method SearchMaskSide(start: int) returns (s: Search)
      requires 0 <= maxOut && dqsOut == start
      modifies this`dmOut
      ensures s == Scan(AxisOf(dqOut[..], start), -maxOut, 0, maxOut + 1)
    {
      var illegal := maxOut + 1;
      s := Search(illegal, illegal, illegal, illegal, 0);
      var d := maxOut;
      while d >= 0
        invariant -1 <= d <= maxOut
        invariant s == Scan(AxisOf(dqOut[..], start), -maxOut, -d - 1, illegal)
      {
        dmOut := d;
        s := Note(s, dmTest(dqOut[..], dmOut, dqsOut), -d, illegal);
        d := d - 1;
      }
    }

    /** Second half: strobe shift upward, with the early exit; the best run is that of the plain search. */
    method SearchStrobeSide(start: int, s0: Search) returns (s: Search)
      requires 0 <= start <= maxOut && dmOut == 0
      requires s0 == Scan(AxisOf(dqOut[..], start), -maxOut, 0, maxOut + 1)
      modifies this`dqsOut, this`octOut
      ensures Answer(s) == FullSearch(dqOut[..], start)
    {
      ghost var pass := AxisOf(dqOut[..], start);
      var illegal := maxOut + 1;
      s := s0;
      if s.endCurr != 0 {
        s := s.(bgnCurr := illegal, endCurr := illegal);
      }
      ScanJoins(pass, -maxOut, 0, illegal);
      var d := 0;
      while d <= maxOut - start
        invariant 0 <= d <= maxOut - start + 1
        invariant s == Scan(pass, -maxOut, Max(d - 1, 0), illegal)
      {
        ApplyStrobe(d + start);
        var passed := dmTest(dqOut[..], dmOut, dqsOut);
        s := Note(s, passed, d, illegal);
        if !passed && s.winBest - 1 > maxOut - start - d {
          ExitIsHarmless(pass, -maxOut, maxOut - start, d, illegal);
          break;
        }
        d := d + 1;
      }
    }

    /** The mask half: find the first longest run, restore the strobe, program the middle of the run, but
        never a strobe shift. */
    method CentreDm(start: int) returns (dmMargin: int, ghost best: BestRun)
      requires 0 <= start <= maxOut && dqsOut == octOut == start
      modifies this`dmOut, this`dqsOut, this`octOut
      ensures dqsOut == octOut == start
      ensures best == FullSearch(dqOut[..], start)
      ensures dmOut == DmMid(best) && 0 <= dmOut <= maxOut
      ensures InMiddle(best.bgn, best.end, dmOut) && (best.size == 0 ==> dmOut == 0)
      ensures best.size > 0 ==> MaskCentred(dmTest, dqOut[..], start, maxOut, dmOut)
      ensures dmMargin >= 0 <==> best.size > 0 && best.bgn <= 0
      ensures dmMargin >= 0 ==> dmTest(dqOut[..], dmOut, start)
    {
      var s := SearchMaskSide(start);
      dmOut := 0;
      s := SearchStrobeSide(start, s);
      best := Answer(s);
      DmVerdict(AxisOf(dqOut[..], start), maxOut, maxOut - start, best);
      MaskSearchFinds(AxisOf(dqOut[..], start), dmTest, dqOut[..], start, maxOut);
      DmMidIsMiddle(best);
      if best.size > 0 {
        MaskIsCentred(dmTest, dqOut[..], start, maxOut);
      }
      var left, right := -1 * s.bgnBest, s.endBest;
      ApplyStrobe(start);
      var mid := Half(left - right);
      if mid < 0 {
        mid := 0;
      }
      if s.winBest == 0 {
        dmMargin := -1;
      } else {
        dmMargin := left - mid;
      }
      dmOut := mid;
    }

    /** What a group whose windows are all in reach ends up with: data pins, mask and verdict. */
    ghost predicate Finished(ws: seq<Window>, start: int, low: int, margins: (int, int), best: BestRun, ok: bool)
      reads this, dqOut
      requires 0 <= maxOut
    {
      && dqsOut == octOut == start
      && CentredOut(RelAll(ws, start), start, maxOut, low, dqOut[..], margins)
      && best == FullSearch(dqOut[..], start) && dmOut == DmMid(best)
      && (ok <==> (forall i :: 0 <= i < |ws| ==> Rel(ws[i], start).hi >= 0) && best.size > 0 && best.bgn <= 0)
    }

    /** Centre data and mask of a group whose edges are known. */
    method CentreGroup(gbl: Gbl, ws: seq<Window>, start: int, left: seq<int>, right: seq<int>)
      returns (ok: bool, ghost low: int, ghost margins: (int, int), ghost best: BestRun)
      requires Valid() && |ws| == width && 0 <= start <= maxOut && dqOut[..] == Same(width, 0)
      requires TrueEdges(RelAll(ws, start), maxOut, maxOut - start, left, right)
      requires AllMeet(RelAll(ws, start), maxOut, maxOut - start)
      modifies dqOut, this`dqsOut, this`octOut, this`dmOut, gbl`fomOut
      ensures Finished(ws, start, low, margins, best, ok)
      ensures gbl.fomOut == old(gbl.fomOut) + margins.0 + margins.1
      ensures ok ==>
        && (forall i :: 0 <= i < width ==> Passes(ws[i], dqOut[i], start) && 0 <= dqOut[i] <= maxOut)
        && dmTest(dqOut[..], dmOut, start) && 0 <= dmOut <= maxOut
      ensures dqOut.Length == width && OutCentred(RelAll(ws, start), start, maxOut, dqOut[..])
      ensures InMiddle(best.bgn, best.end, dmOut)
      ensures best.size > 0 ==> MaskCentred(dmTest, dqOut[..], start, maxOut, dmOut)
    {
      var dqMargin, dqsMargin, dmMargin;
      ghost var rs := RelAll(ws, start);
      dqMargin, dqsMargin, low := CentreDq(rs, start, left, right);
      margins := (dqMargin, dqsMargin);
      ghost var dq := dqOut[..];
      DataSucceedsIff(ws, rs, start, maxOut, low, dq, margins);
      OutIsCentred(rs, start, maxOut, low, dq, margins);
      dmMargin, best := CentreDm(start);
      assert dqOut[..] == dq;
      gbl.fomOut := gbl.fomOut + dqMargin + dqsMargin;
      ok := dqMargin >= 0 && dqsMargin >= 0 && dmMargin >= 0;
      assert ok ==> forall i :: 0 <= i < width ==> Passes(ws[i], dq[i], start) && 0 <= dq[i] <= maxOut;
    }

    /** Per-bit write deskew and mask centring of one group.  `missing` is the first bit without a window in
        reach, or the width. */
    method WritesCenter(gbl: Gbl, ws: seq<Window>, testBgn: nat)
      returns (ok: bool, ghost low: int, ghost margins: (int, int), ghost best: BestRun, ghost missing: int)
      requires Valid() && Wired() && |ws| == dqOut.Length == width && 0 <= dqsOut <= maxOut
      modifies dqOut, this`dqsOut, this`octOut, this`dmOut, gbl`error, gbl`fomOut
      // soundness: every data bit passes at the programmed delays, and the mask delay was seen to pass
      ensures ok ==>
        && (forall i :: 0 <= i < width ==> Passes(ws[i], dqOut[i], dqsOut) && 0 <= dqOut[i] <= maxOut)
        && dmTest(dqOut[..], dmOut, dqsOut) && 0 <= dmOut <= maxOut && dqsOut == octOut == old(dqsOut)
      // every bit has a window in reach: what is programmed, and exactly when that succeeds
      ensures missing == width ==>
        && AllMeet(RelAll(ws, old(dqsOut)), maxOut, maxOut - old(dqsOut))
        && Finished(ws, old(dqsOut), low, margins, best, ok) && gbl.error == old(gbl.error)
        && gbl.fomOut == old(gbl.fomOut) + margins.0 + margins.1
      // every pin and the mask stand in the middle of what passed, as far as their delays reach
      ensures missing == width ==>
        && OutCentred(RelAll(ws, old(dqsOut)), old(dqsOut), maxOut, dqOut[..])
        && InMiddle(best.bgn, best.end, dmOut)
        && (best.size > 0 ==> MaskCentred(dmTest, dqOut[..], old(dqsOut), maxOut, dmOut))
      // some bit has none
      ensures missing != width ==>
        && !ok && gbl.fomOut == old(gbl.fomOut) && dmOut == old(dmOut)
        && FirstMissing(RelAll(ws, old(dqsOut)), maxOut, maxOut - old(dqsOut), missing)
        && gbl.error == Recorded(old(gbl.error), [Report(testBgn + missing, StageWrites, SubWritesCenter)])
    {
      var start := dqsOut;
      var left, right := FindEdges(ws, start);
      ghost var rs := RelAll(ws, start);
      var i := FindMissing(left, right, maxOut + 1);
      low, margins, missing, best := 0, (0, 0), i, BestRun(0, 0, 0);
      MissingIsFirst(rs, maxOut, maxOut - start, left, right, i);
      if i < width {
        gbl.SetFailingGroupStage(testBgn + i, StageWrites, SubWritesCenter);
        ok := false;
      } else {
        ok, low, margins, best := CentreGroup(gbl, ws, start, left, right);
      }
    }
  }

  /** The sticky bits of the write side: passed in the data sweep, or in the strobe sweep so far. */
  ghost predicate SeenBits(rs: seq<Window>, m: int, n: int, sticky: Word)
  {
    forall i :: 0 <= i < WIDTH ==> (sticky[i] <==> i < |rs| && (SawDq(rs[i], m + 1) || SawDqs(rs[i], n)))
  }

  lemma SeenTap(rs: seq<Window>, m: int, d: int, sticky: Word, bits: Word)
    requires 0 <= d && |rs| <= WIDTH && BitsAt(rs, bits, -d) && SeenBits(rs, m, d, sticky)
    ensures SeenBits(rs, m, d + 1, Or(sticky, bits))
  {
  }

  /** Every bit has been seen and now every bit fails: the edges are final, and none is marginal. */
  lemma SeenStop(rs: seq<Window>, m: int, k: int, d: int, l: seq<int>, r: seq<int>, sticky: Word, bits: Word)
    requires 0 <= d <= k <= m && |rs| <= WIDTH && DqsEdges(rs, m, d, l, r) && BitsAt(rs, bits, -d)
    requires SeenBits(rs, m, d, sticky) && Or(sticky, bits) == Mask(|rs|)
    requires forall i :: 0 <= i < |rs| ==> !bits[i]
    ensures DqsEdges(rs, m, k + 1, l, r)
    ensures d == 0 ==> forall i :: 0 <= i < |rs| ==> !(r[i] == m + 1 && l[i] != m + 1)
  {
    forall i | 0 <= i < |rs|
      ensures Settled(rs[i], m, d) && !(rs[i].lo <= -d <= rs[i].hi)
    {
      assert Mask(|rs|)[i] && Or(sticky, bits)[i];
    }
  }
}
