/** Read per-bit deskew: `rw_mgr_mem_calibrate_vfifo_center`. */
module ReadDeskew {
  import opened Words
  import opened Deskew
  import opened CalGlobals
  import BitCheck

  /** The strobe delay `vfifo_center` programs for a group with minimum offset `low`. */
  function NewDqs(low: int, start: int, maxDqs: int): int
    requires 0 <= maxDqs
  {
    Clamp(start - HalfOffset(low), 0, maxDqs)
  }

  /** The data delay of a bit with this offset before it is clamped to the delay chain. */
  function WantedDq(offset: int, low: int, start: int, maxDqs: int): int
    requires 0 <= maxDqs
  {
    Centre(offset, low) - (start - NewDqs(low, start, maxDqs))
  }

  /** What the centring leaves, for a group with relative windows rs, minimum offset `low` and first pin
      `bgn`: the strobe at its new delay, the data delays aligned, the two margins of the group, and
      success exactly when neither margin is negative. */
  ghost predicate Centred(rs: seq<Window>, start: int, maxDq: int, maxDqs: int, low: int, bgn: nat, a: seq<int>,
                          dq: seq<int>, dqs: int, margins: (int, int), ok: bool)
    requires 0 <= maxDq && 0 <= maxDqs
  {
    && |dq| == |rs| && bgn + |rs| <= |a|
    && IsMinOffset(rs, maxDq, maxDqs - start, low)
    && dqs == NewDqs(low, start, maxDqs)
    && (forall i {:trigger rs[i]} :: 0 <= i < |rs| ==>
          dq[i] == ClampShift(WantedDq(Offset(rs[i], maxDq, maxDqs - start), low, start, maxDqs), OtherDelay(a, bgn, dq, i), maxDq))
    && IsLeast(margins.0, LeftMargins(rs, maxDq, dq, start - dqs), maxDq + 1)
    && IsLeast(margins.1, RightMargins(rs, maxDqs - start, dq, start - dqs), maxDq + 1)
    && (ok <==> margins.0 >= 0 && margins.1 >= 0)
  }

  /** The data delays of a group before they are clamped. */
  function WantedAll(rs: seq<Window>, maxDq: int, low: int, start: int, maxDqs: int): seq<int>
    requires 0 <= maxDqs
  {
    seq(|rs|, i requires 0 <= i < |rs| => WantedDq(Offset(rs[i], maxDq, maxDqs - start), low, start, maxDqs))
  }

  lemma WantedIsShift(rs: seq<Window>, l: seq<int>, r: seq<int>, maxDq: int, low: int, start: int, maxDqs: int,
                      origMidMin: int, midMin: int)
    requires 0 <= maxDqs && TrueEdges(rs, maxDq, maxDqs - start, l, r)
    requires origMidMin == HalfOffset(low) && midMin == start - NewDqs(low, start, maxDqs)
    ensures IsShift(WantedAll(rs, maxDq, low, start, maxDqs), l, r, low, origMidMin - midMin)
  {
  }

  lemma MakeCentred(rs: seq<Window>, start: int, maxDq: int, maxDqs: int, low: int, bgn: nat, wanted: seq<int>,
                    l: seq<int>, r: seq<int>, a: seq<int>, dq: seq<int>, dqs: int, margins: (int, int), at: (int, int))
    requires 0 <= maxDq && 0 <= maxDqs && |rs| == |l| == |dq|
    requires Aligned(wanted, l, r, a, dq, bgn, maxDq, start - dqs, margins, at)
    requires TrueEdges(rs, maxDq, maxDqs - start, l, r)
    requires wanted == WantedAll(rs, maxDq, low, start, maxDqs)
    requires IsMinOffset(rs, maxDq, maxDqs - start, low) && dqs == NewDqs(low, start, maxDqs)
    ensures Centred(rs, start, maxDq, maxDqs, low, bgn, a, dq, dqs, margins, margins.0 >= 0 && margins.1 >= 0)
  {
    var lefts, rights := LeftMargins(rs, maxDq, dq, start - dqs), RightMargins(rs, maxDqs - start, dq, start - dqs);
    assert 0 <= at.0 ==> lefts[at.0] == margins.0;
    assert 0 <= at.1 ==> rights[at.1] == margins.1;
  }

  /** Success is: every bit inside its (clipped) window. */
  lemma CentredOk(rs: seq<Window>, start: int, maxDq: int, maxDqs: int, low: int, bgn: nat, a: seq<int>,
                  dq: seq<int>, dqs: int, margins: (int, int), ok: bool)
    requires 0 <= maxDq && 0 <= maxDqs
    requires Centred(rs, start, maxDq, maxDqs, low, bgn, a, dq, dqs, margins, ok)
    ensures ok <==> forall i :: 0 <= i < |rs| ==>
      -Right(rs[i], maxDqs - start) <= dq[i] + (start - dqs) <= Left(rs[i], maxDq)
  {
    MarginsOk(rs, maxDq, maxDqs - start, dq, start - dqs, margins);
  }

  lemma CentredSound(ws: seq<Window>, start: int, maxDq: int, maxDqs: int, low: int, bgn: nat, a: seq<int>,
                     dq: seq<int>, dqs: int, margins: (int, int), ok: bool)
    requires 0 <= maxDq && 0 <= maxDqs
    requires Centred(RelAll(ws, start), start, maxDq, maxDqs, low, bgn, a, dq, dqs, margins, ok)
    requires ok
    ensures forall i :: 0 <= i < |ws| ==> Passes(ws[i], dq[i], dqs)
  {
    var rs := RelAll(ws, start);
    CentredOk(rs, start, maxDq, maxDqs, low, bgn, a, dq, dqs, margins, ok);
    forall i | 0 <= i < |ws|
      ensures Passes(ws[i], dq[i], dqs)
    {
      assert rs[i] == Rel(ws[i], start);
    }
  }

  /** Where one bit ends up, `other` being what the clamp subtracts.  The clamp at zero never acts: the
      strobe is never asked to move past the end of its chain.  So only the end of the data chain can
      keep a bit from the middle of its window, and then it ends up short of it. */
  lemma AlignedPosition(w: Window, w0: Window, maxDq: int, maxDqs: int, start: int, low: int, other: int)
    requires 0 <= other <= maxDq && 0 <= start <= maxDqs
    requires Meets(w, maxDq, maxDqs - start) && Meets(w0, maxDq, maxDqs - start)
    requires low == Offset(w0, maxDq, maxDqs - start) <= Offset(w, maxDq, maxDqs - start)
    ensures var k, move := maxDqs - start, start - NewDqs(low, start, maxDqs);
      var centre := Centre(Offset(w, maxDq, k), low);
      var wanted := WantedDq(Offset(w, maxDq, k), low, start, maxDqs);
      && ClampShift(wanted, other, maxDq) + move == (if wanted <= maxDq then centre else maxDq - other + move)
      && (wanted > maxDq ==> maxDq + move < centre)
      && -Right(w, k) <= centre <= Left(w, maxDq)
      && -1 <= (Left(w, maxDq) - centre) - (Right(w, k) + centre) <= 1
  {
    CentreIsCentred(w, maxDq, maxDqs - start, low);
    HalfOffsetIsCeiling(low);
  }

  /** Bit i either does not need the whole data chain, or what the clamp leaves still reaches its window. */
  predicate Reaches(w: Window, start: int, maxDq: int, maxDqs: int, low: int, other: int)
    requires 0 <= maxDqs
  {
    || WantedDq(Offset(w, maxDq, maxDqs - start), low, start, maxDqs) <= maxDq
    || -Right(w, maxDqs - start) <= maxDq - other + (start - NewDqs(low, start, maxDqs))
  }

  lemma BitInsideIff(rs: seq<Window>, start: int, maxDq: int, maxDqs: int, low: int, bgn: nat, a: seq<int>,
                     dq: seq<int>, dqs: int, margins: (int, int), ok: bool, i: nat)
    requires 0 <= maxDq && 0 <= start <= maxDqs && AllMeet(rs, maxDq, maxDqs - start) && i < |rs|
    requires Centred(rs, start, maxDq, maxDqs, low, bgn, a, dq, dqs, margins, ok) && InChain(a, maxDq) && InChain(dq, maxDq)
    ensures -Right(rs[i], maxDqs - start) <= dq[i] + (start - dqs) <= Left(rs[i], maxDq)
      <==> Reaches(rs[i], start, maxDq, maxDqs, low, OtherDelay(a, bgn, dq, i))
  {
    var j :| 0 <= j < |rs| && low == Offset(rs[j], maxDq, maxDqs - start);
    AlignedPosition(rs[i], rs[j], maxDq, maxDqs, start, low, OtherDelay(a, bgn, dq, i));
  }

  /** Exactly when a group whose windows all meet the swept range is deskewed, for any first pin. */
  lemma CentredSucceedsIff(rs: seq<Window>, start: int, maxDq: int, maxDqs: int, low: int, bgn: nat, a: seq<int>,
                           dq: seq<int>, dqs: int, margins: (int, int), ok: bool)
    requires 0 <= maxDq && 0 <= start <= maxDqs && AllMeet(rs, maxDq, maxDqs - start)
    requires Centred(rs, start, maxDq, maxDqs, low, bgn, a, dq, dqs, margins, ok) && InChain(a, maxDq) && InChain(dq, maxDq)
    ensures ok <==> forall i :: 0 <= i < |rs| ==> Reaches(rs[i], start, maxDq, maxDqs, low, OtherDelay(a, bgn, dq, i))
  {
    CentredOk(rs, start, maxDq, maxDqs, low, bgn, a, dq, dqs, margins, ok);
    forall i | 0 <= i < |rs|
      ensures -Right(rs[i], maxDqs - start) <= dq[i] + (start - dqs) <= Left(rs[i], maxDq)
        <==> Reaches(rs[i], start, maxDq, maxDqs, low, OtherDelay(a, bgn, dq, i))
    {
      BitInsideIff(rs, start, maxDq, maxDqs, low, bgn, a, dq, dqs, margins, ok, i);
    }
  }

  /** For a group that starts at pin 0 the condition is: the data chain is long enough to bring every bit
      to the near edge of its window at the new strobe delay. */
  lemma FirstGroupSucceedsIff(rs: seq<Window>, start: int, maxDq: int, maxDqs: int, low: int, a: seq<int>,
                              dq: seq<int>, dqs: int, margins: (int, int), ok: bool)
    requires 0 <= maxDq && 0 <= start <= maxDqs && AllMeet(rs, maxDq, maxDqs - start)
    requires Centred(rs, start, maxDq, maxDqs, low, 0, a, dq, dqs, margins, ok) && InChain(a, maxDq) && InChain(dq, maxDq)
    ensures ok <==> forall i :: 0 <= i < |rs| ==> -Right(rs[i], maxDqs - start) <= maxDq + (start - dqs)
  {
    CentredSucceedsIff(rs, start, maxDq, maxDqs, low, 0, a, dq, dqs, margins, ok);
    var j :| 0 <= j < |rs| && low == Offset(rs[j], maxDq, maxDqs - start);
    forall i | 0 <= i < |rs|
      ensures Reaches(rs[i], start, maxDq, maxDqs, low, 0) <==> -Right(rs[i], maxDqs - start) <= maxDq + (start - dqs)
    {
      AlignedPosition(rs[i], rs[j], maxDq, maxDqs, start, low, 0);
    }
  }

  /** Where the strobe belongs: back by half the smallest offset, rounded up, or at the end of its chain that is
      nearest to that. */
  predicate Halfway(low: int, start: int, maxDqs: int, dqs: int)
  {
    if low >= 2 * start - 1 then dqs == 0
    else if low <= 2 * (start - maxDqs) then dqs == maxDqs
    else low <= 2 * (start - dqs) <= low + 1
  }

  /** Some bit has the smallest offset, and all that have it keep data delay 0. */
  ghost predicate LowestAtZero(rs: seq<Window>, maxDq: int, k: int, low: int, dq: seq<int>)
    requires |dq| == |rs|
  {
    && (exists i :: 0 <= i < |rs| && Offset(rs[i], maxDq, k) == low)
    && forall i :: 0 <= i < |rs| && Offset(rs[i], maxDq, k) == low ==> dq[i] == 0
  }

  /** The strobe is half way to the smallest offset; and if the chain did not stop it, the bits of that offset stay. */
  ghost predicate StrobeSettled(rs: seq<Window>, start: int, maxDq: int, maxDqs: int, low: int, dq: seq<int>, dqs: int)
  {
    && |dq| == |rs| && Halfway(low, start, maxDqs, dqs)
    && (low <= 2 * (start - dqs) <= low + 1 ==> LowestAtZero(rs, maxDq, maxDqs - start, low, dq))
  }

  lemma NewDqsIsHalfway(low: int, start: int, maxDqs: int)
    requires 0 <= start <= maxDqs
    ensures Halfway(low, start, maxDqs, NewDqs(low, start, maxDqs))
  {
    HalfOffsetIsCeiling(low);
  }

  lemma LowestKeepsZero(low: int, start: int, maxDq: int, maxDqs: int, other: int)
    requires 0 <= maxDq && 0 <= start <= maxDqs
    ensures var dqs := NewDqs(low, start, maxDqs);
      low <= 2 * (start - dqs) <= low + 1 ==> ClampShift(WantedDq(low, low, start, maxDqs), other, maxDq) == 0
  {
    HalfOffsetIsCeiling(low);
  }

  lemma StrobeIsHalfway(rs: seq<Window>, start: int, maxDq: int, maxDqs: int, low: int, bgn: nat, a: seq<int>,
                        dq: seq<int>, dqs: int, margins: (int, int), ok: bool)
    requires 0 <= maxDq && 0 <= start <= maxDqs
    requires maxDq < 0 || Centred(rs, start, maxDq, maxDqs, low, bgn, a, dq, dqs, margins, ok)
    ensures maxDq < 0 || StrobeSettled(rs, start, maxDq, maxDqs, low, dq, dqs)
  {
    NewDqsIsHalfway(low, start, maxDqs);
    forall i | 0 <= i < |rs| && Offset(rs[i], maxDq, maxDqs - start) == low && low <= 2 * (start - dqs) <= low + 1
      ensures dq[i] == 0
    {
      LowestKeepsZero(low, start, maxDq, maxDqs, OtherDelay(a, bgn, dq, i));
    }
  }

  /** A bit whose data delay was not cut off at the end of the chain sits within half a tap of the middle
      of its window, whether or not the strobe was clamped; if no bit was cut off, deskew succeeds. */
  lemma CentringIsOptimal(rs: seq<Window>, start: int, maxDq: int, maxDqs: int, low: int, bgn: nat, a: seq<int>,
                          dq: seq<int>, dqs: int, margins: (int, int), ok: bool)
    requires 0 <= maxDq && 0 <= start <= maxDqs && AllMeet(rs, maxDq, maxDqs - start)
    requires Centred(rs, start, maxDq, maxDqs, low, bgn, a, dq, dqs, margins, ok)
    ensures forall i :: 0 <= i < |rs| && WantedDq(Offset(rs[i], maxDq, maxDqs - start), low, start, maxDqs) <= maxDq ==>
      -1 <= LeftMargins(rs, maxDq, dq, start - dqs)[i] - RightMargins(rs, maxDqs - start, dq, start - dqs)[i] <= 1
    ensures (forall i :: 0 <= i < |rs| ==> WantedDq(Offset(rs[i], maxDq, maxDqs - start), low, start, maxDqs) <= maxDq) ==> ok
  {
    CentredOk(rs, start, maxDq, maxDqs, low, bgn, a, dq, dqs, margins, ok);
    var j :| 0 <= j < |rs| && low == Offset(rs[j], maxDq, maxDqs - start);
    forall i | 0 <= i < |rs| && WantedDq(Offset(rs[i], maxDq, maxDqs - start), low, start, maxDqs) <= maxDq
      ensures -1 <= LeftMargins(rs, maxDq, dq, start - dqs)[i] - RightMargins(rs, maxDqs - start, dq, start - dqs)[i] <= 1
      ensures -Right(rs[i], maxDqs - start) <= dq[i] + (start - dqs) <= Left(rs[i], maxDq)
    {
      AlignedPosition(rs[i], rs[j], maxDq, maxDqs, start, low, 0);
    }
  }

  /** For a later group the clamp subtracts the delays that pins 0, 1, .. of the interface held before, so they
      decide whether the group succeeds. */
  lemma LaterGroupSucceedsIff(rs: seq<Window>, start: int, maxDq: int, maxDqs: int, low: int, bgn: nat, a: seq<int>,
                              dq: seq<int>, dqs: int, margins: (int, int), ok: bool)
    requires 0 <= maxDq && 0 <= start <= maxDqs && AllMeet(rs, maxDq, maxDqs - start) && |rs| <= bgn
    requires Centred(rs, start, maxDq, maxDqs, low, bgn, a, dq, dqs, margins, ok) && InChain(a, maxDq) && InChain(dq, maxDq)
    ensures ok <==> forall i :: 0 <= i < |rs| ==> Reaches(rs[i], start, maxDq, maxDqs, low, a[i])
  {
    CentredSucceedsIff(rs, start, maxDq, maxDqs, low, bgn, a, dq, dqs, margins, ok);
    assert forall i :: 0 <= i < |rs| ==> OtherDelay(a, bgn, dq, i) == a[i];
  }

  /** A group succeeds iff every bit reaches, the clamp subtracting the delays xs. */
  ghost predicate GroupVerdict(rs: seq<Window>, start: int, m: int, low: int, xs: seq<int>, ok: bool)
    requires |rs| <= |xs| && 0 <= m
  {
    && IsMinOffset(rs, m, m - start, low)
    && (ok <==> forall i :: 0 <= i < |rs| ==> Reaches(rs[i], start, m, m, low, xs[i]))
  }

  // Some clauses below guard a predicate by a case that other clauses exclude, so that the verifier handles the
  // predicate as a whole.

  lemma FirstVerdict(rs: seq<Window>, start: int, m: int, low: int, a: seq<int>, dq: seq<int>, dqs: int,
                     margins: (int, int), ok: bool)
    requires 0 <= start <= m && (m < 0 || AllMeet(rs, m, m - start)) && InChain(a, m) && InChain(dq, m)
    requires m < 0 || Centred(rs, start, m, m, low, 0, a, dq, dqs, margins, ok)
    ensures m < 0 || GroupVerdict(rs, start, m, low, Same(|rs|, 0), ok)
  {
    CentredSucceedsIff(rs, start, m, m, low, 0, a, dq, dqs, margins, ok);
    assert forall i :: 0 <= i < |rs| ==> OtherDelay(a, 0, dq, i) == Same(|rs|, 0)[i];
  }

  lemma LaterVerdict(rs: seq<Window>, start: int, m: int, low: int, bgn: nat, a: seq<int>, dq: seq<int>, dqs: int,
                     margins: (int, int), ok: bool)
    requires |rs| <= bgn < |a| && 0 <= start <= m && (m < 0 || AllMeet(rs, m, m - start)) && InChain(a, m) && InChain(dq, m)
    requires m < 0 || Centred(rs, start, m, m, low, bgn, a, dq, dqs, margins, ok)
    ensures m < 0 || GroupVerdict(rs, start, m, low, a, ok)
  {
    LaterGroupSucceedsIff(rs, start, m, m, low, bgn, a, dq, dqs, margins, ok);
  }

  lemma PairVerdict(rs: seq<Window>, start: int, m: int, low: int, xs: seq<int>, ok: bool)
    requires |rs| == 2 <= |xs| && 0 <= m && (m < 0 || GroupVerdict(rs, start, m, low, xs, ok))
    ensures ok == (Reaches(rs[0], start, m, m, low, xs[0]) && Reaches(rs[1], start, m, m, low, xs[1]))
    ensures low == Min(Offset(rs[0], m, m - start), Offset(rs[1], m, m - start))
  {
    assert ok <==> forall i :: 0 <= i < 2 ==> Reaches(rs[i], start, m, m, low, xs[i]);
  }

  /** Chains of 3 taps, the strobe starting at 0, and two windows: both are in reach of the sweeps .. */
  predicate Narrow(w: Window, v: Window, start: int, m: int)
  {
    w == Window(0, 2) && v == Window(-3, -3) && start == 0 && m == 3
  }

  lemma NarrowMeets(rs: seq<Window>, start: int, m: int)
    requires |rs| == 2 && Narrow(rs[0], rs[1], start, m)
    ensures AllMeet(rs, m, m - start)
  {
  }

  lemma NarrowFirst(w: Window, start: int, m: int, low: int, x: int)
    requires w == Window(0, 2) && start == 0 && m == 3 && low == -6
    ensures Reaches(w, start, m, m, low, x) <==> x <= 0
  {
  }

  lemma NarrowSecond(v: Window, start: int, m: int, low: int, y: int)
    requires v == Window(-3, -3) && start == 0 && m == 3 && low == -6
    ensures Reaches(v, start, m, m, low, y)
  {
  }

  lemma NarrowLowest(w: Window, v: Window, start: int, m: int)
    requires Narrow(w, v, start, m)
    ensures Min(Offset(w, m, m - start), Offset(v, m, m - start)) == -6
  {
  }

  /** .. and both bits are reached iff nothing is subtracted from the first. */
  lemma NarrowReaches(w: Window, v: Window, start: int, m: int, low: int, x: int, y: int, ok: bool)
    requires Narrow(w, v, start, m) && low == Min(Offset(w, m, m - start), Offset(v, m, m - start))
    requires ok == (Reaches(w, start, m, m, low, x) && Reaches(v, start, m, m, low, y))
    ensures ok == (x <= 0)
  {
    NarrowLowest(w, v, start, m);
    NarrowFirst(w, start, m, low, x);
    NarrowSecond(v, start, m, low, y);
  }

  lemma NarrowGroup(rs: seq<Window>, start: int, m: int, low: int, xs: seq<int>, ok: bool)
    requires |rs| == 2 <= |xs| && Narrow(rs[0], rs[1], start, m) && (m < 0 || GroupVerdict(rs, start, m, low, xs, ok))
    ensures ok == (xs[0] <= 0)
  {
    PairVerdict(rs, start, m, low, xs, ok);
    NarrowReaches(rs[0], rs[1], start, m, low, xs[0], xs[1], ok);
  }

  /** Why the first pin matters: this group is deskewed when it starts at pin 0 .. */
  lemma NarrowAtPinZero(rs: seq<Window>, start: int, m: int, low: int, a: seq<int>, dq: seq<int>, dqs: int,
                        margins: (int, int), ok: bool)
    requires |rs| == 2 && Narrow(rs[0], rs[1], start, m) && InChain(a, m) && InChain(dq, m)
    requires |rs| != 2 || Centred(rs, start, m, m, low, 0, a, dq, dqs, margins, ok)
    ensures ok
  {
    NarrowMeets(rs, start, m);
    FirstVerdict(rs, start, m, low, a, dq, dqs, margins, ok);
    NarrowGroup(rs, start, m, low, Same(2, 0), ok);
  }

  /** .. and when it starts at a later group's pin iff pin 0 of the interface holds no delay. */
  lemma ClampReadsTheWrongPin(rs: seq<Window>, start: int, m: int, low: int, bgn: nat, a: seq<int>, dq: seq<int>, dqs: int,
                              margins: (int, int), ok: bool)
    requires |rs| == 2 <= bgn < |a| && Narrow(rs[0], rs[1], start, m) && InChain(a, m) && InChain(dq, m)
    requires |rs| != 2 || Centred(rs, start, m, m, low, bgn, a, dq, dqs, margins, ok)
    ensures ok <==> a[0] == 0
  {
    NarrowMeets(rs, start, m);
    LaterVerdict(rs, start, m, low, bgn, a, dq, dqs, margins, ok);
    NarrowGroup(rs, start, m, low, a, ok);
  }

  lemma NarrowVerdict(ws: seq<Window>, start: int, m: int, missing: int, low: int, bgn: nat, a: seq<int>, dq: seq<int>,
                      dqs: int, margins: (int, int), ok: bool)
    requires |ws| == 2 && Narrow(ws[0], ws[1], start, m) && (bgn == 0 || 2 <= bgn) && bgn < |a| && InChain(a, m) && InChain(dq, m)
    requires missing == 2 || FirstMissing(RelAll(ws, start), m, m - start, missing)
    requires missing != 2 || Centred(RelAll(ws, start), start, m, m, low, bgn, a, dq, dqs, margins, ok)
    ensures ok <==> bgn == 0 || a[0] == 0
  {
    var rs := RelAll(ws, start);
    NarrowMeets(rs, start, m);
    if bgn == 0 {
      NarrowAtPinZero(rs, start, m, low, a, dq, dqs, margins, ok);
    } else {
      ClampReadsTheWrongPin(rs, start, m, low, bgn, a, dq, dqs, margins, ok);
    }
  }

  class ReadPath {
    const maxDq: int               // IO_IO_IN_DELAY_MAX
    const maxDqs: int              // IO_DQS_IN_DELAY_MAX
    const vgs: nat                 // virtual groups per read DQS
    const pinsPerVg: nat
    const width: nat               // DQ pins per read DQS
    const ioIn: array<int>         // data input delay register of every pin
    const dqsIn: array<int>        // strobe input delay register of every read group

    constructor (maxDq: int, maxDqs: int, vgs: nat, pinsPerVg: nat, width: nat, ioIn: array<int>, dqsIn: array<int>)
      ensures this.maxDq == maxDq && this.maxDqs == maxDqs && this.ioIn == ioIn && this.dqsIn == dqsIn
      ensures this.vgs == vgs && this.pinsPerVg == pinsPerVg && this.width == width
    {
      this.maxDq, this.maxDqs, this.vgs, this.pinsPerVg, this.width := maxDq, maxDqs, vgs, pinsPerVg, width;
      this.ioIn, this.dqsIn := ioIn, dqsIn;
    }

    predicate Valid()
    {
      0 <= maxDq && 0 <= maxDqs && 1 <= width <= WIDTH && ioIn != dqsIn
    }

    /** The virtual groups make up the group. */
    predicate Wired()
    {
      vgs >= 1 && pinsPerVg >= 1 && width == vgs * pinsPerVg
    }

    /** A read test of one group whose data pins are programmed to dq. */
    method Probe(ws: seq<Window>, bgn: nat, g: nat, ghost a: seq<int>, ghost dq: seq<int>)
      returns (bitChk: Word, one: bool)
      requires Valid() && Wired() && |ws| == |dq| == width && bgn + width <= ioIn.Length && g < dqsIn.Length
      requires bgn + width <= |a| && ioIn[..] == Splice(a, bgn, dq)
      ensures forall i :: 0 <= i < WIDTH ==> (bitChk[i] <==> i < width && Passes(ws[i], dq[i], dqsIn[g]))
      ensures !one ==> forall i :: 0 <= i < width ==> !bitChk[i]
    {
      var delays, dqs := ioIn[bgn..bgn + width], dqsIn[g];
      assert delays == dq;
      var err := (r: nat, vg: nat) => ErrorsOf(ws, delays, dqs, vg * pinsPerVg);
      bitChk, one := BitCheck.BitTest(err, [false], 0, 1, vgs, pinsPerVg, false);
      forall i | 0 <= i < width
        ensures BitCheck.BitGood(err, [false], 0, 1, vgs, pinsPerVg, i) <==> Passes(ws[i], dq[i], dqs)
      {
        AssembledBit(err, ws, dq, dqs, vgs, pinsPerVg, i);
      }
    }

    method ApplyGroupDqInDelay(bgn: nat, delay: int, ghost a: seq<int>, ghost dq: seq<int>)
      requires Valid() && |dq| == width && bgn + width <= |a| && ioIn[..] == Splice(a, bgn, dq)
      modifies ioIn
      ensures ioIn[..] == Splice(a, bgn, Same(width, delay))
    {
      ghost var all := Same(width, delay);
      for i := 0 to width
        invariant ioIn.Length == |a| && ioIn[..] == Splice(a, bgn, all[..i] + dq[i..])
      {
        SpliceMid(a, bgn, all, dq, i, delay);
        ioIn[bgn + i] := delay;
      }
      assert all[..width] + dq[width..] == all;
    }

    /** First sweep: delay all data pins together; leave them at zero. */
    method SweepDq(ws: seq<Window>, bgn: nat, g: nat)
      returns (left: seq<int>, right: seq<int>, ghost sticky': Word)
      requires Valid() && Wired() && |ws| == width && bgn + width <= ioIn.Length && g < dqsIn.Length
      modifies ioIn
      ensures ioIn[..] == Splice(old(ioIn[..]), bgn, Same(width, 0))
      ensures DqState(RelAll(ws, dqsIn[g]), maxDq, maxDq + 1, left, right, sticky')
    {
      left := Same(width, maxDq + 1);
      right := Same(width, maxDq + 1);
      var sticky := ZERO;
      ghost var rs, a, dq := RelAll(ws, dqsIn[g]), ioIn[..], ioIn[bgn..bgn + width];
      assert ioIn[..] == Splice(a, bgn, dq);
      var d := 0;
      while d <= maxDq
        invariant 0 <= d <= maxDq + 1 && |dq| == width && ioIn[..] == Splice(a, bgn, dq)
        invariant DqState(rs, maxDq, d, left, right, sticky)
      {
        ApplyGroupDqInDelay(bgn, d, a, dq);
        dq := Same(width, d);
        var bitChk, one := Probe(ws, bgn, g, a, dq);
        BitsAtDq(ws, dqsIn[g], width, d, bitChk);
        if !one && Or(sticky, bitChk) == Mask(width) {
          DqStop(rs, maxDq, d, left, right, sticky, bitChk);
          break;
        }
        var left', right' := RecordDq(bitChk, d, maxDq + 1, left, right);
        DqTap(rs, maxDq, d, left, right, sticky, bitChk, left', right', Or(sticky, bitChk));
        left, right, sticky := left', right', Or(sticky, bitChk);
        d := d + 1;
      }
      sticky' := sticky;
      ApplyGroupDqInDelay(bgn, 0, a, dq);
    }

    /** Between the sweeps: a right edge without a left edge is dropped; bits with both are settled. */
    method ResetEdges(left: seq<int>, right0: seq<int>) returns (right: seq<int>, sticky: Word)
      requires |left| == |right0| == width <= WIDTH
      ensures |right| == width
      ensures forall i :: 0 <= i < width ==> right[i] == if left[i] == maxDq + 1 then maxDq + 1 else right0[i]
      ensures forall i :: 0 <= i < WIDTH ==>
        (sticky[i] <==> i < width && left[i] != maxDq + 1 && right[i] != maxDq + 1)
    {
      right, sticky := right0, ZERO;
      var i := width;
      while i > 0
        invariant 0 <= i <= width && |right| == width
        invariant forall j :: 0 <= j < i ==> right[j] == right0[j]
        invariant forall j :: i <= j < width ==> right[j] == if left[j] == maxDq + 1 then maxDq + 1 else right0[j]
        invariant forall j :: 0 <= j < WIDTH ==>
          (sticky[j] <==> j + i < width && left[j + i] != maxDq + 1 && right[j + i] != maxDq + 1)
      {
        i := i - 1;
        if left[i] == maxDq + 1 && right[i] != maxDq + 1 {
          right := right[i := maxDq + 1];
        }
        sticky := Shl(sticky, 1);
        if left[i] != maxDq + 1 && right[i] != maxDq + 1 {
          sticky := Or(sticky, Mask(1));
        }
      }
    }

    /** Second sweep: delay the strobe upward from its starting value. */
    method SweepDqs(ws: seq<Window>, bgn: nat, g: nat, start: int, settled: Word, left0: seq<int>, right0: seq<int>,
                    ghost a: seq<int>)
      returns (left: seq<int>, right: seq<int>)
      requires Valid() && Wired() && |ws| == width && bgn + width <= |a| && g < dqsIn.Length
      requires 0 <= start <= maxDqs && maxDqs - start <= maxDq
      requires ioIn[..] == Splice(a, bgn, Same(width, 0))
      requires DqsEdges(RelAll(ws, start), maxDq, 0, left0, right0)
      requires SettledBits(RelAll(ws, start), maxDq, 0, settled)
      modifies dqsIn
      ensures dqsIn[..] == old(dqsIn[..])[g := dqsIn[g]]
      ensures DqsEdges(RelAll(ws, start), maxDq, maxDqs - start + 1, left, right)
    {
      left, right := left0, right0;
      var sticky := settled;
      ghost var rs := RelAll(ws, start);
      var d := 0;
      while d <= maxDqs - start
        invariant 0 <= d <= maxDqs - start + 1
        invariant dqsIn[..] == old(dqsIn[..])[g := dqsIn[g]]
        invariant DqsEdges(rs, maxDq, d, left, right) && SettledBits(rs, maxDq, d, sticky)
      {
        dqsIn[g] := d + start;
        var bitChk, one := Probe(ws, bgn, g, a, Same(width, 0));
        BitsAtDqs(ws, start, width, d, bitChk);
        if !one && Or(sticky, bitChk) == Mask(width) {
          DqsStop(rs, maxDq, maxDqs - start, d, left, right, sticky, bitChk);
          break;
        }
        var left', right' := RecordDqs(bitChk, d, maxDq + 1, left, right);
        DqsTapEdges(rs, maxDq, d, left, right, bitChk, left', right');
        SettledTap(rs, maxDq, d, sticky, bitChk);
        left, right, sticky := left', right', Or(sticky, bitChk);
        d := d + 1;
      }
    }

    /** Both sweeps: the true edges of every bit, clipped to the swept range, or a sentinel. */
    method FindEdges(ws: seq<Window>, bgn: nat, g: nat, start: int) returns (left: seq<int>, right: seq<int>)
      requires Valid() && Wired() && |ws| == width && bgn + width <= ioIn.Length && g < dqsIn.Length
      requires 0 <= start == dqsIn[g] <= maxDqs && maxDqs - start <= maxDq
      modifies ioIn, dqsIn
      ensures ioIn[..] == Splice(old(ioIn[..]), bgn, Same(width, 0))
      ensures dqsIn[..] == old(dqsIn[..])[g := dqsIn[g]]
      ensures |left| == |right| == width && EdgesFound(RelAll(ws, start), maxDq, maxDqs - start, left, right)
    {
      ghost var rs, a, st := RelAll(ws, start), ioIn[..], ZERO;
      left, right, st := SweepDq(ws, bgn, g);
      var settled;
      right, settled := ResetEdges(left, right);
      assert DqsEdges(rs, maxDq, 0, left, right) && SettledBits(rs, maxDq, 0, settled);
      left, right := SweepDqs(ws, bgn, g, start, settled, left, right, a);
      forall i | 0 <= i < width
        ensures EdgeFound(rs[i], maxDq, maxDqs - start, left[i], right[i])
      {
        SearchIsExact(rs[i], maxDq, maxDqs - start);
      }
    }

    /** Shift the delay of pin p, clamped to its chain; the upper clamp reads the delay of pin i instead. */
    method ProgramDq(p: nat, i: nat, offset: int, minOffset: int, move: int) returns (shiftDq: int)
      requires Valid() && i <= p < ioIn.Length && ioIn[p] == 0 && 0 <= ioIn[i] <= maxDq
      modifies ioIn
      ensures ioIn[..] == old(ioIn[..])[p := shiftDq] && 0 <= shiftDq <= maxDq
      ensures shiftDq == ClampShift(Shift(offset, minOffset, move), old(ioIn[i]), maxDq)
    {
      shiftDq := Half(offset - minOffset) + move;
      if shiftDq + ioIn[p] > maxDq {
        shiftDq := maxDq - ioIn[i];
      } else if shiftDq + ioIn[p] < 0 {
        shiftDq := -ioIn[p];
      }
      ioIn[p] := ioIn[p] + shiftDq;
    }

    /** One round of the centring loop: program pin bgn + i and lower the margins it undercuts. */
    method CentreOne(ghost wanted: seq<int>, bgn: nat, i: nat, left: seq<int>, right: seq<int>,
                     minIndex: nat, origMidMin: int, midMin: int, dqMargin0: int, dqsMargin0: int,
                     ghost a: seq<int>, ghost dq: seq<int>, ghost at0: (int, int))
      returns (dqMargin: int, dqsMargin: int, ghost dq': seq<int>, ghost at: (int, int))
      requires Valid() && |wanted| == |left| == |right| == width && bgn + width <= |a| && InChain(a, maxDq)
      requires |dq| == i < width && InChain(dq, maxDq) && minIndex < width
      requires ioIn[..] == Splice(a, bgn, dq + Same(width - i, 0))
      requires wanted[i] == Shift(left[i] - right[i], left[minIndex] - right[minIndex], origMidMin - midMin)
      requires Aligned(wanted, left, right, a, dq, bgn, maxDq, midMin, (dqMargin0, dqsMargin0), at0)
      modifies ioIn
      ensures |dq'| == i + 1 && InChain(dq', maxDq)
      ensures ioIn[..] == Splice(a, bgn, dq' + Same(width - |dq'|, 0))
      ensures Aligned(wanted, left, right, a, dq', bgn, maxDq, midMin, (dqMargin, dqsMargin), at)
    {
      dqMargin, dqsMargin, at := dqMargin0, dqsMargin0, at0;
      SplicedPin(a, bgn, dq, width, maxDq);
      var shiftDq := ProgramDq(bgn + i, i, left[i] - right[i], left[minIndex] - right[minIndex], origMidMin - midMin);
      if left[i] - shiftDq + (-midMin) < dqMargin {
        dqMargin := left[i] - shiftDq + (-midMin);
        at := (i, at.1);
      }
      if right[i] + shiftDq - (-midMin) < dqsMargin {
        dqsMargin := right[i] + shiftDq - (-midMin);
        at := (at.0, i);
      }
      dq' := dq + [shiftDq];
      SpliceShift(a, bgn, dq, width, shiftDq, dq');
      AlignedStep(wanted, left, right, a, dq, bgn, maxDq, midMin, (dqMargin0, dqsMargin0), at0, shiftDq, (dqMargin, dqsMargin), at);
    }

    /** Program the data delays and collect both margins.  `wanted` are the shifts before clamping. */
    method CentreDq(ghost wanted: seq<int>, bgn: nat, left: seq<int>, right: seq<int>,
                    minIndex: nat, origMidMin: int, midMin: int, ghost a: seq<int>)
      returns (dqMargin: int, dqsMargin: int, ghost dq: seq<int>, ghost at: (int, int))
      requires Valid() && |wanted| == |left| == |right| == width && bgn + width <= |a| && InChain(a, maxDq)
      requires ioIn[..] == Splice(a, bgn, Same(width, 0))
      requires minIndex < width
      requires IsShift(wanted, left, right, left[minIndex] - right[minIndex], origMidMin - midMin)
      modifies ioIn
      ensures |dq| == width && ioIn[..] == Splice(a, bgn, dq) && InChain(dq, maxDq)
      ensures Aligned(wanted, left, right, a, dq, bgn, maxDq, midMin, (dqMargin, dqsMargin), at)
    {
      dqMargin, dqsMargin := maxDq + 1, maxDq + 1;
      dq, at := [], (-1, -1);
      assert dq + Same(width, 0) == Same(width, 0);
      for i := 0 to width
        invariant |dq| == i && ioIn[..] == Splice(a, bgn, dq + Same(width - |dq|, 0)) && InChain(dq, maxDq)
        invariant Aligned(wanted, left, right, a, dq, bgn, maxDq, midMin, (dqMargin, dqsMargin), at)
      {
        dqMargin, dqsMargin, dq, at := CentreOne(wanted, bgn, i, left, right, minIndex, origMidMin, midMin,
                                                 dqMargin, dqsMargin, a, dq, at);
      }
      assert dq + Same(0, 0) == dq;
    }

    /** Half the minimum offset, and the part of it the strobe chain can make up. */
    method MoveStrobe(low: int, start: int) returns (origMidMin: int, midMin: int, newDqs: int)
      requires Valid()
      ensures origMidMin == HalfOffset(low) && newDqs == NewDqs(low, start, maxDqs) && midMin == start - newDqs
    {
      midMin := low;
      if midMin > 0 {
        midMin := midMin + 1;
      }
      midMin := Half(midMin);
      origMidMin := midMin;
      newDqs := start - midMin;
      if newDqs > maxDqs {
        newDqs := maxDqs;
      } else if newDqs < 0 {
        newDqs := 0;
      }
      midMin := start - newDqs;
      newDqs := start - midMin;
    }

    /** The centring half of the function: every bit has its two true edges. */
    method Centre(ghost rs: seq<Window>, bgn: nat, g: nat, start: int, left: seq<int>, right: seq<int>, ghost a: seq<int>)
      returns (dqMargin: int, dqsMargin: int, ghost dq: seq<int>, ghost low: int)
      requires Valid() && |rs| == width && bgn + width <= |a| && g < dqsIn.Length && InChain(a, maxDq)
      requires 0 <= start <= maxDqs
      requires ioIn[..] == Splice(a, bgn, Same(width, 0))
      requires TrueEdges(rs, maxDq, maxDqs - start, left, right)
      modifies ioIn, dqsIn
      ensures |dq| == width && ioIn[..] == Splice(a, bgn, dq) && InChain(dq, maxDq)
      ensures dqsIn[..] == old(dqsIn[..])[g := dqsIn[g]]
      ensures Centred(rs, start, maxDq, maxDqs, low, bgn, a, dq, dqsIn[g], (dqMargin, dqsMargin),
                      dqMargin >= 0 && dqsMargin >= 0)
    {
      var midMin, minIndex := FindLowest(rs, maxDq, maxDqs - start, left, right);
      low := midMin;
      var origMidMin, newDqs;
      origMidMin, midMin, newDqs := MoveStrobe(midMin, start);
      ghost var wanted, at := WantedAll(rs, maxDq, low, start, maxDqs), (0, 0);
      WantedIsShift(rs, left, right, maxDq, low, start, maxDqs, origMidMin, midMin);
      dqMargin, dqsMargin, dq, at := CentreDq(wanted, bgn, left, right, minIndex, origMidMin, midMin, a);
      dqsIn[g] := newDqs;
      assert start - newDqs == midMin;
      MakeCentred(rs, start, maxDq, maxDqs, low, bgn, wanted, left, right, a, dq, newDqs, (dqMargin, dqsMargin), at);
    }

    /** Centre a group whose edges are known, and judge it by its margins. */
    method CentreGroup(gbl: Gbl, ghost ws: seq<Window>, bgn: nat, g: nat, start: int, left: seq<int>, right: seq<int>,
                       updateFom: bool, ghost a: seq<int>)
      returns (ok: bool, ghost dq: seq<int>, ghost low: int, ghost margins: (int, int))
      requires Valid() && |ws| == width && bgn + width <= |a| && g < dqsIn.Length && InChain(a, maxDq)
      requires 0 <= start <= maxDqs && ioIn[..] == Splice(a, bgn, Same(width, 0))
      requires TrueEdges(RelAll(ws, start), maxDq, maxDqs - start, left, right)
      modifies ioIn, dqsIn, gbl`fomIn
      ensures |dq| == width && ioIn[..] == Splice(a, bgn, dq) && InChain(dq, maxDq)
      ensures dqsIn[..] == old(dqsIn[..])[g := dqsIn[g]] && 0 <= dqsIn[g] <= maxDqs
      ensures Centred(RelAll(ws, start), start, maxDq, maxDqs, low, bgn, a, dq, dqsIn[g], margins, ok)
      ensures ok ==> forall i :: 0 <= i < width ==> Passes(ws[i], dq[i], dqsIn[g])
      ensures maxDq < 0 || StrobeSettled(RelAll(ws, start), start, maxDq, maxDqs, low, dq, dqsIn[g])
      ensures gbl.fomIn == if updateFom then old(gbl.fomIn) + margins.0 + margins.1 else old(gbl.fomIn)
    {
      var dqMargin, dqsMargin;
      dqMargin, dqsMargin, dq, low := Centre(RelAll(ws, start), bgn, g, start, left, right, a);
      margins := (dqMargin, dqsMargin);
      ok := dqMargin >= 0 && dqsMargin >= 0;
      StrobeIsHalfway(RelAll(ws, start), start, maxDq, maxDqs, low, bgn, a, dq, dqsIn[g], margins, ok);
      if ok {
        CentredSound(ws, start, maxDq, maxDqs, low, bgn, a, dq, dqsIn[g], margins, ok);
      }
      if updateFom {
        gbl.fomIn := gbl.fomIn + dqMargin + dqsMargin;
      }
    }

    /** Per-bit read deskew of one group.  Zero is returned, with the strobe delay restored, when some bit
        has no window in reach; otherwise the strobe moves toward the centre of the smallest offset and
        the data pins are delayed to align with it.  `firstDq` is the number of the
        group's first pin in the whole interface, `dq` the delays left in the group's pins, `missing`
        the first bit without a window in reach, or the width. */
    method VfifoCenter(gbl: Gbl, ws: seq<Window>, bgn: nat, g: nat, firstDq: nat, useReadTest: bool, updateFom: bool)
      returns (ok: bool, ghost dq: seq<int>, ghost low: int, ghost margins: (int, int), ghost missing: int)
      requires Valid() && Wired() && |ws| == width && bgn + width <= ioIn.Length && g < dqsIn.Length
      requires InChain(ioIn[..], maxDq) && 0 <= dqsIn[g] <= maxDqs && maxDqs - dqsIn[g] <= maxDq
      modifies ioIn, dqsIn, gbl`error, gbl`fomIn
      // only this group's registers change, and they stay in range
      ensures |dq| == width && ioIn[..] == Splice(old(ioIn[..]), bgn, dq) && InChain(dq, maxDq)
      ensures dqsIn[..] == old(dqsIn[..])[g := dqsIn[g]] && 0 <= dqsIn[g] <= maxDqs
      // soundness: on success every bit passes at exactly the programmed delays
      ensures ok ==> forall i :: 0 <= i < width ==> Passes(ws[i], dq[i], dqsIn[g])
      // every bit has a window: what is programmed, and when that succeeds
      ensures missing == width ==>
        && AllMeet(RelAll(ws, old(dqsIn[g])), maxDq, maxDqs - old(dqsIn[g]))
        && Centred(RelAll(ws, old(dqsIn[g])), old(dqsIn[g]), maxDq, maxDqs, low, bgn, old(ioIn[..]), dq, dqsIn[g], margins, ok)
        && gbl.error == old(gbl.error)
        && gbl.fomIn == if updateFom then old(gbl.fomIn) + margins.0 + margins.1 else old(gbl.fomIn)
      // the strobe goes half way to the smallest offset, and unless its chain ends there the bits of that offset stay
      ensures missing != width ||
        StrobeSettled(RelAll(ws, old(dqsIn[g])), old(dqsIn[g]), maxDq, maxDqs, low, dq, dqsIn[g])
      // some bit has none
      ensures missing != width ==>
        && !ok && dqsIn[g] == old(dqsIn[g]) && gbl.fomIn == old(gbl.fomIn)
        && FirstMissing(RelAll(ws, old(dqsIn[g])), maxDq, maxDqs - old(dqsIn[g]), missing)
        && gbl.error == Recorded(old(gbl.error),
             [Report(firstDq + missing, if useReadTest then StageVfifo else StageVfifoAfterWrites, SubVfifoCenter)])
    {
      var start := dqsIn[g];
      ghost var a := ioIn[..];
      var left, right := FindEdges(ws, bgn, g, start);
      ghost var rs := RelAll(ws, start);
      var i := FindMissing(left, right, maxDq + 1);
      dq, low, margins, missing := Same(width, 0), 0, (0, 0), i;
      MissingIsFirst(rs, maxDq, maxDqs - start, left, right, i);
      if i < width {
        dqsIn[g] := start;
        gbl.SetFailingGroupStage(firstDq + i, if useReadTest then StageVfifo else StageVfifoAfterWrites, SubVfifoCenter);
        ok := false;
        assert ioIn[..] == Splice(a, bgn, dq);
      } else {
        ok, dq, low, margins := CentreGroup(gbl, ws, bgn, g, start, left, right, updateFom, a);
      }
    }
  }

  /** Two such windows as the pins from `bgn` of an interface of four, pin 0 holding a delay. */
  method WrongPinOccurs(gbl: Gbl, bgn: nat, held: int) returns (ok: bool)
    requires bgn in [0, 2] && 0 <= held <= 3
    modifies gbl
    ensures ok <==> bgn == 0 || held == 0
  {
    var ioIn := new int[4](_ => 0);
    var dqsIn := new int[2](_ => 0);
    ioIn[0] := held;
    var path := new ReadPath(3, 3, 1, 2, 2, ioIn, dqsIn);
    var ws := [Window(0, 2), Window(-3, -3)];
    ghost var a, start := ioIn[..], dqsIn[bgn / 2];
    ghost var dq, low, margins, missing;
    ok, dq, low, margins, missing := path.VfifoCenter(gbl, ws, bgn, bgn / 2, bgn, true, false);
    NarrowVerdict(ws, start, path.maxDq, missing, low, bgn, a, dq, dqsIn[bgn / 2], margins, ok);
  }
}
