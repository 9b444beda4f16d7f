/** What the per-bit deskew works towards, shared by the read side (`vfifo_center`) and the write
    side (`writes_center`): data-valid windows, their edges on the swept axis, and the arithmetic
    that centres a group of windows.

    A sweep starts from a strobe delay `start`.  Delaying the data pin by d moves a bit to position
    +d, delaying the strobe by d more than `start` moves it to position -d.  The data side reaches
    positions 0..m, the strobe side positions 0..-k. */
module Deskew {
  import opened Words
  import BitCheck

  /** The bit is sampled correctly iff lo <= data delay - strobe delay <= hi. */
  datatype Window = Window(lo: int, hi: int)

  predicate Passes(w: Window, dq: int, dqs: int)
  {
    w.lo <= dq - dqs <= w.hi
  }

  /** The window in positions relative to the strobe delay a sweep starts from. */
  function Rel(w: Window, start: int): Window
  {
    Window(w.lo + start, w.hi + start)
  }

  // ----- Register files -----

  /** Register file `a` with the registers from `bgn` on replaced by d. */
  function Splice(a: seq<int>, bgn: nat, d: seq<int>): (r: seq<int>)
    requires bgn + |d| <= |a|
    ensures |r| == |a|
  {
    a[..bgn] + d + a[bgn + |d|..]
  }

  lemma SpliceAt(a: seq<int>, bgn: nat, d: seq<int>, p: nat)
    requires bgn + |d| <= |a| && p < |a|
    ensures Splice(a, bgn, d)[p] == if bgn <= p < bgn + |d| then d[p - bgn] else a[p]
  {
  }

  /** n registers holding the same delay. */
  function Same(n: nat, delay: int): (r: seq<int>)
    ensures |r| == n && forall i :: 0 <= i < n ==> r[i] == delay
  {
    seq(n, _ => delay)
  }

  lemma SpliceMid(a: seq<int>, bgn: nat, e: seq<int>, d: seq<int>, i: nat, v: int)
    requires bgn + |d| <= |a| && i < |d| == |e| && e[i] == v
    ensures Splice(a, bgn, e[..i] + d[i..])[bgn + i := v] == Splice(a, bgn, e[..i + 1] + d[i + 1..])
  {
    assert e[..i + 1] == e[..i] + [v];
    assert d[i..] == [d[i]] + d[i + 1..];
  }

  /** Programming the next pin of a group whose remaining pins hold zero. */
  lemma SpliceShift(a: seq<int>, bgn: nat, dq: seq<int>, n: nat, v: int, dq': seq<int>)
    requires bgn + n <= |a| && |dq| < n && dq' == dq + [v]
    ensures Splice(a, bgn, dq + Same(n - |dq|, 0))[bgn + |dq| := v] == Splice(a, bgn, dq' + Same(n - |dq'|, 0))
  {
  }

  /** What pin i holds when the delays of the first |dq| pins of the group at `bgn` have been programmed
      and bit i of the group is next (or was programmed before). */
  function OtherDelay(a: seq<int>, bgn: nat, dq: seq<int>, i: nat): int
    requires bgn + i < |a| && i <= |dq|
  {
    if i < bgn then a[i] else if bgn == 0 then 0 else dq[i - bgn]
  }

  /** While a group is being programmed its next pin holds zero and every earlier pin is in range. */
  lemma SplicedPin(a: seq<int>, bgn: nat, dq: seq<int>, n: nat, m: int)
    requires bgn + n <= |a| && |dq| < n && InChain(a, m) && InChain(dq, m) && 0 <= m
    ensures Splice(a, bgn, dq + Same(n - |dq|, 0))[bgn + |dq|] == 0
    ensures Splice(a, bgn, dq + Same(n - |dq|, 0))[|dq|] == OtherDelay(a, bgn, dq, |dq|)
    ensures 0 <= OtherDelay(a, bgn, dq, |dq|) <= m
  {
    SpliceAt(a, bgn, dq + Same(n - |dq|, 0), |dq|);
  }

  /** Every delay fits a chain of length m. */
  predicate InChain(a: seq<int>, m: int)
  {
    forall p :: 0 <= p < |a| ==> 0 <= a[p] <= m
  }

  // ----- Edges of a (relative) window -----

  /** Some swept position lies in the window. */
  predicate Meets(w: Window, m: int, k: int)
  {
    Max(w.lo, -k) <= Min(w.hi, m)
  }

  /** Largest swept position inside the window. */
  function Left(w: Window, m: int): int { Min(w.hi, m) }

  /** Largest strobe shift inside the window, that is, minus the smallest position. */
  function Right(w: Window, k: int): int { Min(-w.lo, k) }

  /** Position x is swept and passes. */
  predicate Inside(w: Window, m: int, k: int, x: int)
  {
    -k <= x <= m && w.lo <= x <= w.hi
  }

  /** Left and Right are the ends of exactly the swept positions that pass. */
  lemma EdgesBoundPassingPositions(w: Window, m: int, k: int)
    ensures Meets(w, m, k) <==> exists x :: Inside(w, m, k, x)
    ensures Meets(w, m, k) ==> forall x :: Inside(w, m, k, x) <==> -Right(w, k) <= x <= Left(w, m)
  {
    if Meets(w, m, k) {
      assert Inside(w, m, k, Left(w, m));
    }
  }

  // ----- State of the edge search after n taps -----

  /** A test passed at some data delay below n. */
  predicate SawDq(w: Window, n: int)
  {
    n > 0 && w.lo <= w.hi && w.hi >= 0 && w.lo < n
  }

  function LeftAfterDq(w: Window, m: int, n: int): int
  {
    if SawDq(w, n) then Min(w.hi, n - 1) else m + 1
  }

  function RightAfterDq(w: Window, m: int, n: int): int
  {
    if SawDq(w, n) then if w.lo > 0 then -w.lo else m + 1
    else if n == 0 then m + 1 else -n
  }

  /** A test passed at some strobe shift below n. */
  predicate SawDqs(w: Window, n: int)
  {
    n > 0 && w.lo <= w.hi && w.lo <= 0 && w.hi > -n
  }

  function LeftAfterDqs(w: Window, m: int, n: int): int
  {
    if SawDq(w, m + 1) then Min(w.hi, m)
    else if SawDqs(w, n) then w.hi
    else if n == 0 then m + 1 else -n
  }

  function RightAfterDqs(w: Window, m: int, n: int): int
  {
    if SawDq(w, m + 1) && w.lo > 0 then -w.lo
    else if SawDqs(w, n) then Min(-w.lo, n - 1)
    else m + 1
  }

  /** The recorded edges are the true edges clipped to the swept range, or one of them is the sentinel
      when the window misses that range. */
  predicate EdgeFound(w: Window, m: int, k: int, left: int, right: int)
  {
    if Meets(w, m, k) then left == Left(w, m) && right == Right(w, k)
    else left == m + 1 || right == m + 1
  }

  /** After both sweeps the edges are exact, and the sentinels tell exactly whether the window was met. */
  lemma SearchIsExact(w: Window, m: int, k: int)
    requires 0 <= k <= m
    ensures EdgeFound(w, m, k, LeftAfterDqs(w, m, k + 1), RightAfterDqs(w, m, k + 1))
    ensures Meets(w, m, k) ==> Left(w, m) <= m && Right(w, k) <= m
  {
  }

  /** The windows of a group, relative to the strobe delay its sweep starts from. */
  function RelAll(ws: seq<Window>, start: int): (rs: seq<Window>)
    ensures |rs| == |ws|
  {
    seq(|ws|, i requires 0 <= i < |ws| => Rel(ws[i], start))
  }

  /** The pass bits of a group at position x. */
  ghost predicate BitsAt(rs: seq<Window>, bits: Word, x: int)
  {
    forall i :: 0 <= i < WIDTH ==> (bits[i] <==> i < |rs| && rs[i].lo <= x <= rs[i].hi)
  }

  /** Edges and sticky bits of a group after n taps of the data sweep. */
  ghost predicate DqState(rs: seq<Window>, m: int, n: int, left: seq<int>, right: seq<int>, sticky: Word)
  {
    && |left| == |right| == |rs|
    && (forall i :: 0 <= i < |rs| ==> left[i] == LeftAfterDq(rs[i], m, n) && right[i] == RightAfterDq(rs[i], m, n))
    && (forall i :: 0 <= i < WIDTH ==> (sticky[i] <==> i < |rs| && SawDq(rs[i], n)))
  }

  /** A bit whose window ends on the data side is settled before the strobe sweep starts. */
  predicate Settled(w: Window, m: int, n: int)
  {
    (SawDq(w, m + 1) && w.lo > 0) || SawDqs(w, n)
  }

  /** The sticky bits of the strobe sweep: settled before, or seen to pass. */
  ghost predicate SettledBits(rs: seq<Window>, m: int, n: int, sticky: Word)
  {
    forall i :: 0 <= i < WIDTH ==> (sticky[i] <==> i < |rs| && Settled(rs[i], m, n))
  }

  /** Edges of a group after n taps of the strobe sweep. */
  ghost predicate DqsEdges(rs: seq<Window>, m: int, n: int, left: seq<int>, right: seq<int>)
  {
    && |left| == |right| == |rs|
    && forall i :: 0 <= i < |rs| ==> left[i] == LeftAfterDqs(rs[i], m, n) && right[i] == RightAfterDqs(rs[i], m, n)
  }

  /** The edges of one bit after the data sweep has looked at tap d; `illegal` is the "not seen" sentinel. */
  function DqStep(pass: bool, d: int, illegal: int, left: int, right: int): (int, int)
  {
    if pass then (d, right) else if left == illegal then (left, -(d + 1)) else (left, right)
  }

  /** The edges of one bit after the strobe sweep has looked at tap d. */
  function DqsStep(pass: bool, d: int, illegal: int, left: int, right: int): (int, int)
  {
    if pass then (left, d)
    else if right != illegal then (left, right)
    else if d == 0 && left != illegal then (left, -1)
    else (-(d + 1), right)
  }

  lemma DqTap(rs: seq<Window>, m: int, d: int, l: seq<int>, r: seq<int>, sticky: Word, bits: Word,
              l': seq<int>, r': seq<int>, sticky': Word)
    requires 0 <= d <= m && |rs| <= WIDTH && DqState(rs, m, d, l, r, sticky) && BitsAt(rs, bits, d)
    requires |l'| == |r'| == |rs|
    requires forall i :: 0 <= i < |rs| ==> (l'[i], r'[i]) == DqStep(bits[i], d, m + 1, l[i], r[i])
    requires sticky' == Or(sticky, bits)
    ensures DqState(rs, m, d + 1, l', r', sticky')
  {
    forall i | 0 <= i < |rs|
      ensures l'[i] == LeftAfterDq(rs[i], m, d + 1) && r'[i] == RightAfterDq(rs[i], m, d + 1)
    {
      assert (l'[i], r'[i]) == DqStep(bits[i], d, m + 1, l[i], r[i]);
    }
  }

  /** Stopping early at a tap where every bit fails, after every bit has been seen to pass, leaves the
      edges the full data sweep would leave. */
  lemma DqStop(rs: seq<Window>, m: int, d: int, l: seq<int>, r: seq<int>, sticky: Word, bits: Word)
    requires 0 <= d <= m && |rs| <= WIDTH && DqState(rs, m, d, l, r, sticky) && BitsAt(rs, bits, d)
    requires (forall i :: 0 <= i < |rs| ==> !bits[i]) && Or(sticky, bits) == Mask(|rs|)
    ensures DqState(rs, m, m + 1, l, r, sticky)
  {
    forall i | 0 <= i < |rs|
      ensures SawDq(rs[i], d) && !(rs[i].lo <= d <= rs[i].hi)
    {
      assert Mask(|rs|)[i] && Or(sticky, bits)[i];
    }
  }

  lemma DqsTapEdges(rs: seq<Window>, m: int, d: int, l: seq<int>, r: seq<int>, bits: Word, l': seq<int>, r': seq<int>)
    requires 0 <= d <= m && |rs| <= WIDTH && DqsEdges(rs, m, d, l, r) && BitsAt(rs, bits, -d)
    requires |l'| == |r'| == |rs|
    requires forall i :: 0 <= i < |rs| ==> (l'[i], r'[i]) == DqsStep(bits[i], d, m + 1, l[i], r[i])
    ensures DqsEdges(rs, m, d + 1, l', r')
  {
    forall i | 0 <= i < |rs|
      ensures l'[i] == LeftAfterDqs(rs[i], m, d + 1) && r'[i] == RightAfterDqs(rs[i], m, d + 1)
    {
      assert (l'[i], r'[i]) == DqsStep(bits[i], d, m + 1, l[i], r[i]);
    }
  }

  lemma SettledTap(rs: seq<Window>, m: int, d: int, sticky: Word, bits: Word)
    requires 0 <= d && |rs| <= WIDTH && BitsAt(rs, bits, -d) && SettledBits(rs, m, d, sticky)
    ensures SettledBits(rs, m, d + 1, Or(sticky, bits))
  {
  }

  /** The same for the strobe sweep: every bit was settled or has passed, and now every bit fails. */
  lemma DqsStop(rs: seq<Window>, m: int, k: int, d: int, l: seq<int>, r: seq<int>, sticky: Word, bits: Word)
    requires 0 <= d <= k <= m && |rs| <= WIDTH && DqsEdges(rs, m, d, l, r) && BitsAt(rs, bits, -d)
    requires SettledBits(rs, m, d, sticky) && Or(sticky, bits) == Mask(|rs|)
    requires forall i :: 0 <= i < |rs| ==> !bits[i]
    ensures DqsEdges(rs, m, k + 1, l, r)
  {
    forall i | 0 <= i < |rs|
      ensures Settled(rs[i], m, d) && !(rs[i].lo <= -d <= rs[i].hi)
    {
      assert Mask(|rs|)[i] && Or(sticky, bits)[i];
    }
  }

  /** All data pins at delay d, strobe at its start: position d. */
  lemma BitsAtDq(ws: seq<Window>, start: int, n: nat, d: int, bits: Word)
    requires |ws| == n <= WIDTH
    requires forall i :: 0 <= i < WIDTH ==> (bits[i] <==> i < n && Passes(ws[i], Same(n, d)[i], start))
    ensures BitsAt(RelAll(ws, start), bits, d)
  {
  }

  /** Data pins at zero, strobe d taps past its start: position -d. */
  lemma BitsAtDqs(ws: seq<Window>, start: int, n: nat, d: int, bits: Word)
    requires |ws| == n <= WIDTH
    requires forall i :: 0 <= i < WIDTH ==> (bits[i] <==> i < n && Passes(ws[i], Same(n, 0)[i], d + start))
    ensures BitsAt(RelAll(ws, start), bits, -d)
  {
  }

  /** The inner loop of the data sweep: walk the pass bits with a right shift and update both edges. */
  method RecordDq(bitChk: Word, d: int, illegal: int, left0: seq<int>, right0: seq<int>)
    returns (left: seq<int>, right: seq<int>)
    requires |left0| == |right0| <= WIDTH
    ensures |left| == |right| == |left0|
    ensures forall i :: 0 <= i < |left| ==> (left[i], right[i]) == DqStep(bitChk[i], d, illegal, left0[i], right0[i])
  {
    left, right := left0, right0;
    var bits := bitChk;
    for i := 0 to |left0|
      invariant |left| == |right| == |left0| && bits == Shr(bitChk, i)
      invariant forall j :: 0 <= j < i ==> (left[j], right[j]) == DqStep(bitChk[j], d, illegal, left0[j], right0[j])
      invariant forall j :: i <= j < |left| ==> left[j] == left0[j] && right[j] == right0[j]
    {
      if bits[0] {
        left := left[i := d];
      } else if left[i] == illegal {
        right := right[i := -(d + 1)];
      }
      ShrStep(bitChk, i);
      bits := Shr(bits, 1);
    }
  }

  /** The inner loop of the strobe sweep. */
  method RecordDqs(bitChk: Word, d: int, illegal: int, left0: seq<int>, right0: seq<int>)
    returns (left: seq<int>, right: seq<int>)
    requires |left0| == |right0| <= WIDTH
    ensures |left| == |right| == |left0|
    ensures forall i :: 0 <= i < |left| ==> (left[i], right[i]) == DqsStep(bitChk[i], d, illegal, left0[i], right0[i])
  {
    left, right := left0, right0;
    var bits := bitChk;
    for i := 0 to |left0|
      invariant |left| == |right| == |left0| && bits == Shr(bitChk, i)
      invariant forall j :: 0 <= j < i ==> (left[j], right[j]) == DqsStep(bitChk[j], d, illegal, left0[j], right0[j])
      invariant forall j :: i <= j < |left| ==> left[j] == left0[j] && right[j] == right0[j]
    {
      if bits[0] {
        right := right[i := d];
      } else {
        if d != 0 {
          if right[i] == illegal {
            left := left[i := -(d + 1)];
          }
        } else {
          if right[i] == illegal && left[i] != illegal {
            right := right[i := -1];
          } else if right[i] == illegal {
            left := left[i := -(d + 1)];
          }
        }
      }
      ShrStep(bitChk, i);
      bits := Shr(bits, 1);
    }
  }

  // ----- Centring -----

  /** Every recorded edge is the true edge. */
  ghost predicate TrueEdges(rs: seq<Window>, m: int, k: int, l: seq<int>, r: seq<int>)
  {
    && |l| == |r| == |rs|
    && forall i :: 0 <= i < |rs| ==> l[i] == Left(rs[i], m) && r[i] == Right(rs[i], k)
  }

  ghost predicate EdgesFound(rs: seq<Window>, m: int, k: int, left: seq<int>, right: seq<int>)
    requires |left| == |right| == |rs|
  {
    forall i :: 0 <= i < |rs| ==> EdgeFound(rs[i], m, k, left[i], right[i])
  }

  predicate AllMeet(ws: seq<Window>, m: int, k: int)
  {
    forall i :: 0 <= i < |ws| ==> Meets(ws[i], m, k)
  }

  /** Twice the middle of the clipped window. */
  function Offset(w: Window, m: int, k: int): int
  {
    Left(w, m) - Right(w, k)
  }

  /** `low` is the smallest offset of the group. */
  ghost predicate IsMinOffset(ws: seq<Window>, m: int, k: int, low: int)
  {
    && (forall i :: 0 <= i < |ws| ==> low <= Offset(ws[i], m, k))
    && exists i :: 0 <= i < |ws| && low == Offset(ws[i], m, k)
  }

  /** Half the minimum offset as the code computes it: add one to a positive value, then truncate. */
  function HalfOffset(midMin: int): int
  {
    Half(if midMin > 0 then midMin + 1 else midMin)
  }

  lemma HalfOffsetIsCeiling(midMin: int)
    ensures midMin <= 2 * HalfOffset(midMin) <= midMin + 1
  {
  }

  /** The position of a bit before its data delay is clamped. */
  function Centre(offset: int, midMin: int): int
  {
    Half(offset - midMin) + HalfOffset(midMin)
  }

  /** The unclamped position is within half a tap of the middle of the window, hence inside it. */
  lemma CentreIsCentred(w: Window, m: int, k: int, midMin: int)
    requires midMin <= Offset(w, m, k)
    ensures -1 <= Offset(w, m, k) - 2 * Centre(Offset(w, m, k), midMin) <= 1
    ensures Meets(w, m, k) ==> -Right(w, k) <= Centre(Offset(w, m, k), midMin) <= Left(w, m)
  {
  }

  /** Bit i is the first without a window in reach. */
  predicate FirstMissing(rs: seq<Window>, m: int, k: int, i: int)
  {
    0 <= i < |rs| && !Meets(rs[i], m, k) && forall j :: 0 <= j < i ==> Meets(rs[j], m, k)
  }

  lemma MissingIsFirst(rs: seq<Window>, m: int, k: int, l: seq<int>, r: seq<int>, i: nat)
    requires |l| == |r| == |rs| && i <= |rs| && EdgesFound(rs, m, k, l, r) && 0 <= k <= m
    requires forall j :: 0 <= j < i ==> l[j] != m + 1 && r[j] != m + 1
    requires i < |rs| ==> l[i] == m + 1 || r[i] == m + 1
    ensures i < |rs| ==> FirstMissing(rs, m, k, i)
    ensures i == |rs| ==> AllMeet(rs, m, k)
    ensures i == |rs| ==> TrueEdges(rs, m, k, l, r)
  {
    forall j | 0 <= j < i
      ensures Meets(rs[j], m, k) && l[j] == Left(rs[j], m) && r[j] == Right(rs[j], k)
    {
      assert EdgeFound(rs[j], m, k, l[j], r[j]);
    }
    assert i < |rs| ==> EdgeFound(rs[i], m, k, l[i], r[i]);
  }

  /** `margin` is the least of the values, but at most `cap`. */
  ghost predicate IsLeast(margin: int, vals: seq<int>, cap: int)
  {
    && margin <= cap && (forall i :: 0 <= i < |vals| ==> margin <= vals[i])
    && (margin == cap || margin in vals)
  }

  /** Distance of each bit to the left edge of its window when it sits at position dq[i] + move. */
  function LeftMargins(rs: seq<Window>, m: int, dq: seq<int>, move: int): seq<int>
    requires |dq| == |rs|
  {
    seq(|rs|, i requires 0 <= i < |rs| => Left(rs[i], m) - (dq[i] + move))
  }

  /** The same to the right edge. */
  function RightMargins(rs: seq<Window>, k: int, dq: seq<int>, move: int): seq<int>
    requires |dq| == |rs|
  {
    seq(|rs|, i requires 0 <= i < |rs| => Right(rs[i], k) + (dq[i] + move))
  }

  /** Neither margin is negative exactly when every bit lies inside its (clipped) window. */
  lemma MarginsOk(rs: seq<Window>, m: int, k: int, dq: seq<int>, move: int, margins: (int, int))
    requires 0 <= m && |dq| == |rs|
    requires IsLeast(margins.0, LeftMargins(rs, m, dq, move), m + 1)
    requires IsLeast(margins.1, RightMargins(rs, k, dq, move), m + 1)
    ensures margins.0 >= 0 && margins.1 >= 0 <==> forall i :: 0 <= i < |rs| ==> -Right(rs[i], k) <= dq[i] + move <= Left(rs[i], m)
  {
    var lefts, rights := LeftMargins(rs, m, dq, move), RightMargins(rs, k, dq, move);
    if margins.0 < 0 {
      var i :| 0 <= i < |lefts| && lefts[i] == margins.0;
      assert dq[i] + move > Left(rs[i], m);
    } else if margins.1 < 0 {
      var i :| 0 <= i < |rights| && rights[i] == margins.1;
      assert dq[i] + move < -Right(rs[i], k);
    } else {
      forall i | 0 <= i < |rs|
        ensures -Right(rs[i], k) <= dq[i] + move <= Left(rs[i], m)
      {
        assert lefts[i] >= 0 && rights[i] >= 0;
      }
    }
  }

  /** The clamp of the data shift: at the end of the chain the delay of another pin is subtracted. */
  function ClampShift(raw: int, other: int, maxDq: int): int
  {
    if raw > maxDq then maxDq - other else if raw < 0 then 0 else raw
  }

  /** The centring loop after |dq| bits: delays programmed and both margins, with where each is attained. */
  ghost predicate Aligned(wanted: seq<int>, l: seq<int>, r: seq<int>, a: seq<int>, dq: seq<int>, bgn: nat, maxDq: int,
                          midMin: int, margins: (int, int), at: (int, int))
    requires 0 <= maxDq
  {
    var n := |dq|;
    && n <= |l| == |r| == |wanted| && bgn + n <= |a|
    && (forall i :: 0 <= i < n ==> dq[i] == ClampShift(wanted[i], OtherDelay(a, bgn, dq, i), maxDq))
    && margins.0 <= maxDq + 1 && (forall i :: 0 <= i < n ==> margins.0 <= l[i] - (dq[i] + midMin))
    && margins.1 <= maxDq + 1 && (forall i :: 0 <= i < n ==> margins.1 <= r[i] + (dq[i] + midMin))
    && at.0 < n && margins.0 == (if 0 <= at.0 then l[at.0] - (dq[at.0] + midMin) else maxDq + 1)
    && at.1 < n && margins.1 == (if 0 <= at.1 then r[at.1] + (dq[at.1] + midMin) else maxDq + 1)
  }

  lemma AlignedStep(wanted: seq<int>, l: seq<int>, r: seq<int>, a: seq<int>, dq: seq<int>, bgn: nat, maxDq: int, midMin: int,
                    margins: (int, int), at: (int, int), shiftDq: int, margins': (int, int), at': (int, int))
    requires 0 <= maxDq && |dq| < |l| && bgn + |dq| < |a|
    requires Aligned(wanted, l, r, a, dq, bgn, maxDq, midMin, margins, at)
    requires var n := |dq|;
      && shiftDq == ClampShift(wanted[n], OtherDelay(a, bgn, dq, n), maxDq)
      && (margins'.0, at'.0) == (if l[n] - shiftDq - midMin < margins.0 then (l[n] - shiftDq - midMin, n) else (margins.0, at.0))
      && (margins'.1, at'.1) == (if r[n] + shiftDq + midMin < margins.1 then (r[n] + shiftDq + midMin, n) else (margins.1, at.1))
    ensures Aligned(wanted, l, r, a, dq + [shiftDq], bgn, maxDq, midMin, margins', at')
  {
    var dq' := dq + [shiftDq];
    forall i | 0 <= i < |dq'|
      ensures dq'[i] == ClampShift(wanted[i], OtherDelay(a, bgn, dq', i), maxDq)
    {
      assert OtherDelay(a, bgn, dq', i) == OtherDelay(a, bgn, dq, i);
    }
  }

  ghost predicate IsShift(wanted: seq<int>, l: seq<int>, r: seq<int>, low: int, move: int)
    requires |wanted| == |l| == |r|
  {
    forall i :: 0 <= i < |wanted| ==> wanted[i] == Shift(l[i] - r[i], low, move)
  }

  lemma LowestIsMin(rs: seq<Window>, m: int, k: int, l: seq<int>, r: seq<int>, minIndex: nat, low: int)
    requires TrueEdges(rs, m, k, l, r) && minIndex < |rs| && low == l[minIndex] - r[minIndex]
    requires forall j :: 0 <= j < |rs| ==> low <= l[j] - r[j]
    ensures IsMinOffset(rs, m, k, low)
  {
    assert low == Offset(rs[minIndex], m, k);
  }

  /** How far a bit moves: half its offset above the group's minimum, plus what the strobe could not do. */
  function Shift(offset: int, minOffset: int, move: int): int
  {
    Half(offset - minOffset) + move
  }

  /** The first bit without both edges, if any. */
  method FindMissing(left: seq<int>, right: seq<int>, illegal: int) returns (i: nat)
    requires |left| == |right|
    ensures i <= |left|
    ensures forall j :: 0 <= j < i ==> left[j] != illegal && right[j] != illegal
    ensures i < |left| ==> left[i] == illegal || right[i] == illegal
  {
    i := 0;
    while i < |left| && left[i] != illegal && right[i] != illegal
      invariant i <= |left|
      invariant forall j :: 0 <= j < i ==> left[j] != illegal && right[j] != illegal
    {
      i := i + 1;
    }
  }

  /** The smallest offset of the group and where it occurs. */
  method FindMinOffset(left: seq<int>, right: seq<int>) returns (midMin: int, minIndex: nat)
    requires |left| == |right| >= 1
    ensures minIndex < |left| && midMin == left[minIndex] - right[minIndex]
    ensures forall j :: 0 <= j < |left| ==> midMin <= left[j] - right[j]
  {
    midMin, minIndex := left[0] - right[0], 0;
    for i := 1 to |left|
      invariant minIndex < i && midMin == left[minIndex] - right[minIndex]
      invariant forall j :: 0 <= j < i ==> midMin <= left[j] - right[j]
    {
      var mid := left[i] - right[i];
      if mid < midMin {
        midMin, minIndex := mid, i;
      }
    }
  }

  /** The smallest offset of a group whose edges are true is the smallest of its windows. */
  method FindLowest(ghost rs: seq<Window>, m: int, ghost k: int, left: seq<int>, right: seq<int>)
    returns (low: int, minIndex: nat)
    requires |rs| > 0 && TrueEdges(rs, m, k, left, right)
    ensures minIndex < |rs| == |left| == |right| && low == left[minIndex] - right[minIndex] && IsMinOffset(rs, m, k, low)
  {
    low, minIndex := FindMinOffset(left, right);
    LowestIsMin(rs, m, k, left, right, minIndex, low);
  }

  /** The error word of one virtual group: pin j of the group fails at these delays. */
  function ErrorsOf(ws: seq<Window>, dq: seq<int>, dqs: int, bgn: nat): Word
    requires |ws| == |dq|
  {
    seq(WIDTH, j requires 0 <= j < WIDTH => bgn + j < |ws| && !Passes(ws[bgn + j], dq[bgn + j], dqs))
  }

  /** The word assembled from the virtual groups has bit i set exactly when pin i passes. */
  lemma AssembledBit(err: BitCheck.ErrorWords, ws: seq<Window>, dq: seq<int>, dqs: int, vgs: nat, w: nat, i: nat)
    requires w >= 1 && |ws| == |dq| == vgs * w <= WIDTH && i < |ws|
    requires forall r: nat, vg: nat :: err(r, vg) == ErrorsOf(ws, dq, dqs, vg * w)
    ensures BitCheck.BitGood(err, [false], 0, 1, vgs, w, i) <==> Passes(ws[i], dq[i], dqs)
  {
    var vg, j := i / w, BitCheck.PinOf(vgs, w, i);
    assert vg * w + j == i;
    assert err(0, vg)[j] <==> !Passes(ws[i], dq[i], dqs);
    assert BitCheck.RankGood(err, 0, vgs, w, i) <==> Passes(ws[i], dq[i], dqs);
  }
}
