/** The LFIFO search for the smallest read latency: `rw_mgr_mem_calibrate_lfifo`. */
module Lfifo {
  import opened CalGlobals
  import opened Words

  /** Latency `next` is where the search from `start` stopped: every latency above it passed, and it failed
      unless it is 0, which is never tried. */
  ghost predicate StoppedAt(passes: int -> bool, start: int, next: int)
  {
    && 0 <= next <= start
    && (forall l :: next < l <= start ==> passes(l))
    && (next > 0 ==> !passes(next))
  }

  /** Reads pass exactly from latency t up. */
  ghost predicate Threshold(passes: int -> bool, t: int)
  {
    forall l :: passes(l) <==> t <= l
  }

  /** Where the search stops is determined by the outcomes. */
  lemma StopIsUnique(passes: int -> bool, start: int, a: int, b: int)
    requires StoppedAt(passes, start, a) && StoppedAt(passes, start, b)
    ensures a == b
  {
  }

  /** With a threshold within reach, the latency kept is one more than the smallest that works. */
  lemma ThresholdIsFound(passes: int -> bool, start: int, next: int, t: int)
    requires Threshold(passes, t) && 1 <= t <= start && StoppedAt(passes, start, next)
    ensures next + 2 == t + 1
  {
    assert StoppedAt(passes, start, t - 1);
    StopIsUnique(passes, start, next, t - 1);
  }

  /** The latency kept was itself tried iff the one just below the starting latency also passed; otherwise it
      lies one above every latency tried. */
  lemma KeptLatencyTried(passes: int -> bool, start: int, next: int)
    requires 1 <= start && passes(start) && StoppedAt(passes, start, next)
    ensures next + 2 <= start + 1
    ensures next + 2 <= start <==> 2 <= start && passes(start - 1)
  {
  }

  class Phy {
    const passes: int -> bool  // outcome of the all-rank read test at a latency
    var readLatency: int       // PHY_MGR_PHY_RLAT

    /** The highest latency of the search: the counter of a search that starts at zero wraps around. */
    function Top(start: int): int
    {
      if start == 0 then U32 - 1 else start
    }

    /** Lower the latency while reads pass; it is tried once before it is compared with zero. */
    method Lower(gbl: Gbl) returns (foundOne: bool)
      requires 0 <= gbl.currReadLat < U32
      modifies this, gbl`currReadLat
      ensures foundOne <==> passes(old(gbl.currReadLat))
      ensures foundOne ==> StoppedAt(passes, Top(old(gbl.currReadLat)), gbl.currReadLat)
      ensures !foundOne ==> readLatency == gbl.currReadLat == old(gbl.currReadLat)
    {
      foundOne := false;
      ghost var start := gbl.currReadLat;
      while true
        invariant !foundOne ==> gbl.currReadLat == start
        invariant foundOne ==> passes(start) && 0 < gbl.currReadLat <= Top(start)
        invariant foundOne ==> forall l :: gbl.currReadLat < l <= Top(start) ==> passes(l)
        decreases if foundOne then gbl.currReadLat else U32
      {
        readLatency := gbl.currReadLat;
        if !passes(gbl.currReadLat) {
          break;
        }
        foundOne := true;
        gbl.currReadLat := ToU32(gbl.currReadLat - 1);
        if gbl.currReadLat == 0 {
          break;
        }
      }
    }

    /** The search.  It fails iff the starting latency fails; where it stops decides the latency kept, in 32 bits. */
    method Calibrate(gbl: Gbl) returns (ok: bool)
      requires 0 <= gbl.currReadLat < U32
      modifies this, gbl`currReadLat, gbl`error
      ensures ok <==> passes(old(gbl.currReadLat))
      ensures 0 <= gbl.currReadLat == readLatency < U32
      ensures ok ==>
        && StoppedAt(passes, Top(old(gbl.currReadLat)), ToU32(gbl.currReadLat - 2))
        && gbl.error == old(gbl.error)
      ensures !ok ==>
        && gbl.currReadLat == old(gbl.currReadLat)
        && gbl.error == Recorded(old(gbl.error), [Report(0xff, StageLfifo, SubReadLatency)])
      ensures forall t :: Threshold(passes, t) && 1 <= t <= old(gbl.currReadLat) ==> gbl.currReadLat == ToU32(t + 1)
    {
      ghost var start := gbl.currReadLat;
      ok := Lower(gbl);
      forall t | Threshold(passes, t) && 1 <= t <= start
        ensures gbl.currReadLat + 2 == t + 1
      {
        ThresholdIsFound(passes, start, gbl.currReadLat, t);
      }
      if ok {
        gbl.currReadLat := ToU32(gbl.currReadLat + 2);
        readLatency := gbl.currReadLat;
      } else {
        gbl.SetFailingGroupStage(0xff, StageLfifo, SubReadLatency);
      }
    }
  }
}
