/** The calibration globals (`gbl`) that the stages share. */
module CalGlobals {
  import opened Words

  datatype Stage = StageNil | StageVfifo | StageWlevel | StageLfifo | StageWrites | StageVfifoAfterWrites

  datatype Substage = SubNil | SubGuaranteedRead | SubDqsEnPhase | SubVfifoCenter | SubWritesCenter | SubReadLatency

  /** One call of `set_failing_group_stage`. */
  datatype Report = Report(group: int, stage: Stage, substage: Substage)

  const NO_ERROR := Report(0xff, StageNil, SubNil)

  /** The error record after a sequence of reports. */
  function Recorded(err: Report, log: seq<Report>): Report
    decreases |log|
  {
    if err.stage != StageNil || log == [] then err else Recorded(log[0], log[1..])
  }

  lemma {:induction false} RecordedAppend(err: Report, a: seq<Report>, b: seq<Report>)
    ensures Recorded(err, a + b) == Recorded(Recorded(err, a), b)
    decreases |a|
  {
    if a == [] {
      assert a + b == b;
    } else if err.stage == StageNil {
      assert (a + b)[1..] == a[1..] + b;
      RecordedAppend(a[0], a[1..], b);
    }
  }

  class Gbl {
    var error: Report
    var fomIn: int
    var fomOut: int
    var currReadLat: int

    constructor ()
      ensures error == NO_ERROR && fomIn == 0 && fomOut == 0 && currReadLat == 0
    {
      error, fomIn, fomOut, currReadLat := NO_ERROR, 0, 0, 0;
    }

    /** The global record keeps the first failure only. */
    method SetFailingGroupStage(group: int, stage: Stage, substage: Substage)
      modifies this`error
      ensures error == Recorded(old(error), [Report(group, stage, substage)])
    {
      if error.stage == StageNil {
        error := Report(group, stage, substage);
      }
    }
  }
}
