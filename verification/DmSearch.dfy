/** The window search for the data-mask pin in `rw_mgr_mem_calibrate_writes_center`.

    The search runs over one joined axis: position t <= 0 is a mask delay of -t, position t >= 0 a
    strobe shift of t.  `pass` is any deterministic outcome of the write test along that axis. */
module DmSearch {
  import opened Words

  type Axis = int -> bool

  /** All positions b..e pass. */
  ghost predicate Run(pass: Axis, b: int, e: int)
  {
    b <= e && forall t :: b <= t <= e ==> pass(t)
  }

  /** b..e is a longest run inside lo..hi, and the first of that length. */
  ghost predicate FirstLongest(pass: Axis, lo: int, hi: int, b: int, e: int)
  {
    && lo <= b && e <= hi && Run(pass, b, e)
    && forall b', e' :: lo <= b' && e' <= hi && Run(pass, b', e') ==> e' - b' < e - b || (e' - b' == e - b && b <= b')
  }

  /** What the search knows: no position passed and the best size is zero, or the first longest run. */
  ghost predicate Best(pass: Axis, lo: int, hi: int, b: int, e: int, size: int)
  {
    if size == 0 then forall t :: lo <= t <= hi ==> !pass(t)
    else size == e - b + 1 && FirstLongest(pass, lo, hi, b, e)
  }

  /** The run that ends at the last position looked at: where it starts, or the sentinel. */
  ghost predicate Current(pass: Axis, lo: int, hi: int, b: int, e: int, illegal: int)
  {
    if lo <= hi && pass(hi) then
      lo <= b && e == hi && Run(pass, b, hi) && (lo < b ==> !pass(b - 1))
    else b == illegal && e == illegal
  }

  lemma RunEndsAtLast(pass: Axis, lo: int, b: int, hi: int, b': int)
    requires lo <= b' && lo <= b && (lo < b ==> !pass(b - 1)) && Run(pass, b', hi) && b <= hi
    ensures b <= b'
  {
    assert b' <= b - 1 ==> pass(b - 1);
  }

  /** A failing position adds no run. */
  lemma BestAfterFail(pass: Axis, lo: int, hi: int, b: int, e: int, size: int)
    requires Best(pass, lo, hi - 1, b, e, size) && !pass(hi)
    ensures Best(pass, lo, hi, b, e, size)
  {
    if size != 0 {
      forall b', e' | lo <= b' && e' <= hi && Run(pass, b', e')
        ensures e' - b' < e - b || (e' - b' == e - b && b <= b')
      {
        assert e' != hi;
      }
    }
  }

  /** A passing position can only be beaten by the run that ends there. */
  lemma BestAfterPass(pass: Axis, lo: int, hi: int, b: int, e: int, size: int, cur: int)
    requires Best(pass, lo, hi - 1, b, e, size) && size >= 0 && pass(hi)
    requires lo <= cur && Run(pass, cur, hi) && (lo < cur ==> !pass(cur - 1))
    ensures hi - cur + 1 > size ==> Best(pass, lo, hi, cur, hi, hi - cur + 1)
    ensures hi - cur + 1 <= size ==> Best(pass, lo, hi, b, e, size)
  {
    if hi - cur + 1 > size {
      forall b', e' | lo <= b' && e' <= hi && Run(pass, b', e')
        ensures e' - b' < hi - cur || (e' - b' == hi - cur && cur <= b')
      {
        assert size == 0 && e' < hi ==> !pass(b');
        if e' == hi {
          RunEndsAtLast(pass, lo, cur, hi, b');
        }
      }
    } else {
      assert pass(cur);
      forall b', e' | lo <= b' && e' <= hi && Run(pass, b', e')
        ensures e' - b' < e - b || (e' - b' == e - b && b <= b')
      {
        if e' == hi {
          RunEndsAtLast(pass, lo, cur, hi, b');
        }
      }
    }
  }

  /** The variables of the search.  bgnCurr/endCurr hold the sentinel while no run is open. */
  datatype Search = Search(bgnCurr: int, endCurr: int, bgnBest: int, endBest: int, winBest: int)

  /** One test result: extend or close the current run, and keep the bigger run. */
  function Note(s: Search, passed: bool, t: int, illegal: int): Search
  {
    if passed then
      var bgn := if s.bgnCurr == illegal then t else s.bgnCurr;
      if t - bgn + 1 > s.winBest then Search(bgn, t, bgn, t, t - bgn + 1) else s.(bgnCurr := bgn, endCurr := t)
    else s.(bgnCurr := illegal, endCurr := illegal)
  }

  /** The state of the search after positions lo..hi. */
  ghost predicate Known(pass: Axis, lo: int, hi: int, s: Search, illegal: int)
  {
    && s.winBest >= 0 && Best(pass, lo, hi, s.bgnBest, s.endBest, s.winBest)
    && (s.winBest == 0 ==> s.bgnBest == illegal && s.endBest == illegal)
    && Current(pass, lo, hi, s.bgnCurr, s.endCurr, illegal)
    && (s.endCurr != illegal ==> s.winBest >= s.endCurr - s.bgnCurr + 1)
  }

  lemma NoteKeeps(pass: Axis, lo: int, hi: int, s: Search, illegal: int)
    requires Known(pass, lo, hi - 1, s, illegal) && lo <= hi < illegal
    ensures Known(pass, lo, hi, Note(s, pass(hi), hi, illegal), illegal)
  {
    var s' := Note(s, pass(hi), hi, illegal);
    if pass(hi) {
      assert Run(pass, s'.bgnCurr, hi);
      BestAfterPass(pass, lo, hi, s.bgnBest, s.endBest, s.winBest, s'.bgnCurr);
    } else {
      BestAfterFail(pass, lo, hi, s.bgnBest, s.endBest, s.winBest);
    }
  }

  /** The plain search: every position of lo..hi once, from lo upward. */
  function Scan(pass: Axis, lo: int, hi: int, illegal: int): Search
    decreases hi - lo + 1
  {
    if hi < lo then Search(illegal, illegal, illegal, illegal, 0)
    else Note(Scan(pass, lo, hi - 1, illegal), pass(hi), hi, illegal)
  }

  lemma {:induction false} ScanKnows(pass: Axis, lo: int, hi: int, illegal: int)
    requires hi < illegal && lo - 1 <= hi
    ensures Known(pass, lo, hi, Scan(pass, lo, hi, illegal), illegal)
    decreases hi - lo + 1
  {
    if lo <= hi {
      ScanKnows(pass, lo, hi - 1, illegal);
      NoteKeeps(pass, lo, hi, Scan(pass, lo, hi - 1, illegal), illegal);
    }
  }

  /** Testing the last position once more changes nothing (it is not counted twice), and closing the open
      run unless it ends at the last position changes nothing either (the run is not split). */
  lemma ScanJoins(pass: Axis, lo: int, hi: int, illegal: int)
    requires lo <= hi < illegal
    ensures Note(Scan(pass, lo, hi, illegal), pass(hi), hi, illegal) == Scan(pass, lo, hi, illegal)
    ensures Scan(pass, lo, hi, illegal).endCurr != hi ==>
      Scan(pass, lo, hi, illegal).bgnCurr == illegal == Scan(pass, lo, hi, illegal).endCurr
  {
    ScanKnows(pass, lo, hi, illegal);
  }

  /** The answer of a search. */
  datatype BestRun = BestRun(bgn: int, end: int, size: int)

  function Answer(s: Search): BestRun
  {
    BestRun(s.bgnBest, s.endBest, s.winBest)
  }

  /** After a failing position d the current run is at most t - d long at t. */
  lemma {:induction false} ScanAfterFail(pass: Axis, lo: int, d: int, t: int, illegal: int)
    requires lo <= d <= t < illegal && !pass(d)
    requires Scan(pass, lo, d, illegal).winBest >= t - d
    ensures Answer(Scan(pass, lo, t, illegal)) == Answer(Scan(pass, lo, d, illegal))
    ensures Scan(pass, lo, t, illegal).bgnCurr == illegal || d < Scan(pass, lo, t, illegal).bgnCurr
    decreases t - d
  {
    if d < t {
      ScanAfterFail(pass, lo, d, t - 1, illegal);
    }
  }

  /** The early exit: when the positions left after a failing one are fewer than the best size, the rest of
      the axis cannot change the best run. */
  lemma ExitIsHarmless(pass: Axis, lo: int, hi: int, d: int, illegal: int)
    requires lo <= d <= hi < illegal && !pass(d) && Scan(pass, lo, d, illegal).winBest - 1 > hi - d
    ensures Answer(Scan(pass, lo, d, illegal)) == Answer(Scan(pass, lo, hi, illegal))
  {
    ScanAfterFail(pass, lo, d, hi, illegal);
  }

  /** The answer is the first longest run, or the sentinels when nothing passed. */
  ghost predicate Found(pass: Axis, lo: int, hi: int, r: BestRun, illegal: int)
  {
    && r.size >= 0 && Best(pass, lo, hi, r.bgn, r.end, r.size)
    && (r.size == 0 ==> r.bgn == illegal && r.end == illegal)
  }

  /** The plain search finds the first longest run. */
  lemma ScanFinds(pass: Axis, lo: int, hi: int, illegal: int)
    requires lo <= hi < illegal
    ensures Found(pass, lo, hi, Answer(Scan(pass, lo, hi, illegal)), illegal)
  {
    ScanKnows(pass, lo, hi, illegal);
  }

  /** What is programmed from the best run: the mask delay, and the margin that decides. */
  function DmMid(r: BestRun): int
  {
    var mid := Half(-r.bgn - r.end);
    if mid < 0 then 0 else mid
  }

  function DmMargin(r: BestRun): int
  {
    if r.size == 0 then -1 else -r.bgn - DmMid(r)
  }

  /** The mask pin calibrates exactly when the first longest run starts on the mask side (or at 0), and
      then the programmed delay is one inside that run: the test passed there. */
  lemma DmVerdict(pass: Axis, m: int, k: int, r: BestRun)
    requires 0 <= k <= m && r == Answer(Scan(pass, -m, k, m + 1))
    ensures DmMargin(r) >= 0 <==> r.size > 0 && r.bgn <= 0
    ensures DmMargin(r) >= 0 ==> pass(-DmMid(r)) && r.bgn <= -DmMid(r) <= r.end
    ensures 0 <= DmMid(r) <= m
  {
    ScanFinds(pass, -m, k, m + 1);
  }

  /** Mask delay x is in the middle of positions b..e of the joined axis: equally far from both ends but for one tap,
      or at zero when the middle lies on the strobe side. */
  predicate InMiddle(b: int, e: int, x: int)
  {
    if b + e <= 0 then -1 <= (-b - x) - (e + x) <= 1 else x == 0
  }

  lemma DmMidIsMiddle(r: BestRun)
    ensures InMiddle(r.bgn, r.end, DmMid(r))
  {
  }

  /** A shorter run on the mask side does not help: with tests passing at position -1 and at positions 2
      and 3 (chains of 3 taps) the first longest run starts at 2 and the mask pin fails, although the test
      passes at mask delay 1. */
  lemma LongerStrobeRunHidesMaskRun(pass: Axis)
    requires forall t :: pass(t) <==> t == -1 || t == 2 || t == 3
    ensures DmMargin(Answer(Scan(pass, -3, 3, 4))) < 0 && pass(-1)
  {
    var r := Answer(Scan(pass, -3, 3, 4));
    ScanFinds(pass, -3, 3, 4);
    assert Run(pass, 2, 3) && Run(pass, -1, -1);
    assert r.size >= 2;
    assert pass(r.bgn) && pass(r.bgn + 1);
  }
}
