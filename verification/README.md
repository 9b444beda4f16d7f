# Verified model of the DE1-SoC camera system's firmware

This project models the firmware parts with the most involved behaviour and proves what they promise.

* **DDR3 calibration sequencer** (Cyclone V hard PHY build). `BitCheck` assembles the pass bits of the read and write
  tests. `Deskew` holds what both deskew functions share: windows, sweeps, edges, margins. `ReadDeskew` and
  `WriteDeskew` are the two functions over classes that hold the delay registers, `DmSearch` the longest-window search
  of the data mask over two delay axes, `DqsEnable` the search over (VFIFO turn, phase, delay), `Lfifo` the read latency
  search, `VfifoStage` the read stage with its retries, `MemCalibrate` the orchestrator with its first-failure record
  (`CalGlobals`), `Board` the stages put together, down to what the delay registers hold in the end,
  `DelayLoop` the idle program of the read/write manager.
* **Debug mailbox** (`Mailbox`): device and host as two parties that read and write shared words one at a time, in any
  interleaving, and the configuration that the commands build up.
* **File descriptor pool** (`FdTable`): every call as a step on a table, the pool that is updated in place proved
  against those steps, and invariants over all runs after boot.
* **Formatted printers** (`Digits`, `Printf`): two independently written printers, each against its own
  specification, with reading back and agreement proved.
* **I2C master and camera registers** (`I2c`): transactions as traces of controller commands against an arbitrary
  device, the bus rules of UM10204, and a device with 16-bit registers.

`Words` has machine words, truncating division and a few facts about products and quotients.

A read or write test is an oracle. In the two deskew functions pin i passes when its data delay minus the strobe delay
lies in a window of its own (`Deskew.Window`), and the error words the tests return are derived from that; everywhere
else the oracle is arbitrary. Constants are parameters with the relations `sequencer_defines.h` satisfies. Branches are
those of the build: strobe centring on for reads and off for writes, phase 0 skipped, strobe tracking on, the strobe
enable not shifted with the strobe.

## Where code and comments differ

* The upper clamp of read deskew (sequencer.c:5360) reads the delay of pin i, its neighbours that of pin p. The model
  follows the code for every first pin; `ReadDeskew.CentredSucceedsIff` says exactly when a group then succeeds and
  `ReadDeskew.WrongPinOccurs` shows a group that fails because of it. For a
  group that starts at pin 0 the clamp is harmless. In this build there is one read group per write group, so that
  `mem_calibrate` passes pin 0 only (sequencer.c:9239, 9307) and the case is not reached; with more read groups the
  first pin is a multiple of the group's width (`ReadDeskew.LaterGroupSucceedsIff`).
* The comment at alt_fd_lock.c:43-46 promises a lock only when no other descriptor references the device. The scan
  leaves out the descriptor at the high-water mark; `FdTable.GrantedThoughSharedIff` is the exact condition. At most
  one holder and no new descriptor for a held device hold nevertheless.
* In the DQS-enable search the recorded end of the window trails by one phase after a first hit at phase 1
  (sequencer.c:4213-4323). `DqsEnable.Search.FindWindow` has the exact condition and `DqsEnable.LagOccurs` a run in
  which it happens.
* The comment at sequencer.c:5846-5848 promises a loop over the strobe delays for every retry. The loop starts from
  what the register holds, and a round whose last phase search fails leaves the maximum there, so that later rounds try
  that delay only (`VfifoStage.LaterRoundsTryOneDelay` is a run; `VfifoStage.Setup.NextRoundStart` is the exact
  condition).
* A calibration that passes can leave a failure on record (`MemCalibrate.PassWithFailureOnRecord`); it does iff some
  stage call that ran reported one (`MemCalibrate.Sequencer.Calibrate`).
* `delay_for_n_mem_clocks` delays by a single step when rounding up overflows
  (`DelayLoop.RwManager.DelayForNMemClocks`). That needs a rate ratio above 1; this build has 1
  (sequencer_defines.h:47).
* `i2c_write_array` and `i2c_read_array` with size 0 succeed without a STOP (`I2c.WriteIsLegal`, `I2c.ReadIsLegal`).

## Model

| member | source | states |
|---|---|---|
| `BitCheck.PartStep` | hw/quartus/hps_isw_handoff/soc_system_hps_0/sequencer.c:3797-3813 | Pushing an assembled word up by one virtual group and ORing in the next group moves every bit to the place where its (group, pin) belongs |
| `BitCheck.AssembleRank` | hw/quartus/hps_isw_handoff/soc_system_hps_0/sequencer.c:3797-3813 | The word of one rank has bit k set iff that rank reported no error at pin k mod W of virtual group k div W |
| `BitCheck.BitTest` | hw/quartus/hps_isw_handoff/soc_system_hps_0/sequencer.c:3750-3837 | Bit k of the result is set iff no rank that takes part reported an error there; the verdict is exactly "every bit" or exactly "at least one bit", as the caller asks (the write test at 6417-6474 assembles its words the same way) |
| `CalGlobals.RecordedAppend` | hw/quartus/hps_isw_handoff/soc_system_hps_0/sequencer.c:591-611 | Reporting two sequences of failures one after the other records what reporting them together records: the first failure is never overwritten |
| `CalGlobals.Gbl.SetFailingGroupStage` | hw/quartus/hps_isw_handoff/soc_system_hps_0/sequencer.c:591-611 | A report is recorded only while no failure is on record |
| `Deskew.EdgesBoundPassingPositions` | hw/quartus/hps_isw_handoff/soc_system_hps_0/sequencer.c:5138-5260 | The two edges of a bit are the ends of exactly the swept positions at which it passes, for windows on the data side, on the strobe side, or around zero |
| `Deskew.SearchIsExact` | hw/quartus/hps_isw_handoff/soc_system_hps_0/sequencer.c:5133-5260 | After both sweeps each recorded edge is the true window edge clipped to the swept range, and a sentinel is left iff the window misses that range |
| `Deskew.DqStop` | hw/quartus/hps_isw_handoff/soc_system_hps_0/sequencer.c:5152-5157 | Stopping the data sweep early leaves the edges the full sweep would leave |
| `Deskew.DqsStop` | hw/quartus/hps_isw_handoff/soc_system_hps_0/sequencer.c:5224-5230 | Stopping the strobe sweep early leaves the edges the full sweep would leave |
| `Deskew.RecordDq` | hw/quartus/hps_isw_handoff/soc_system_hps_0/sequencer.c:5159-5172 | Walking the pass bits of one data tap with a right shift gives every bit the edges its whole history of passes calls for |
| `Deskew.RecordDqs` | hw/quartus/hps_isw_handoff/soc_system_hps_0/sequencer.c:5232-5258 | The same for one strobe tap, including a bit that fails at the first tap after passing on the data side |
| `Deskew.AssembledBit` | hw/quartus/hps_isw_handoff/soc_system_hps_0/sequencer.c:3797-3813 | The word assembled from the virtual groups has bit i set exactly when the delays of pin i and of the strobe lie in the window of pin i |
| `Deskew.FindMissing` | hw/quartus/hps_isw_handoff/soc_system_hps_0/sequencer.c:5275-5298 | The index found is the first bit with a sentinel among its edges, or the width if there is none |
| `Deskew.MissingIsFirst` | hw/quartus/hps_isw_handoff/soc_system_hps_0/sequencer.c:5275-5298 | The first bit with a sentinel is the first bit whose window misses the swept range |
| `Deskew.FindMinOffset` | hw/quartus/hps_isw_handoff/soc_system_hps_0/sequencer.c:5300-5309 | The value found is the smallest difference of edges in the group, and is attained at the index found |
| `Deskew.HalfOffsetIsCeiling` | hw/quartus/hps_isw_handoff/soc_system_hps_0/sequencer.c:5311-5316 | Adding one to a positive value before the truncating division rounds half the minimum offset up, for either sign |
| `Deskew.CentreIsCentred` | hw/quartus/hps_isw_handoff/soc_system_hps_0/sequencer.c:5352-5363 | A bit that is not clamped sits at a position inside its window whose distances to both edges differ by at most one tap |
| `Deskew.MarginsOk` | hw/quartus/hps_isw_handoff/soc_system_hps_0/sequencer.c:5372-5378 | Both group margins are non-negative exactly when every bit lies inside its clipped window |
| `ReadDeskew.AlignedPosition` | hw/quartus/hps_isw_handoff/soc_system_hps_0/sequencer.c:5352-5363 | Whether or not the strobe is clamped, a bit ends in the middle of its window unless the data chain is too short, and then it ends short of the middle; the clamp at zero never acts |
| `ReadDeskew.CentredSound` | hw/quartus/hps_isw_handoff/soc_system_hps_0/sequencer.c:5300-5443 | When the margins decide for success, every bit passes at exactly the programmed data and strobe delays |
| `ReadDeskew.CentredSucceedsIff` | hw/quartus/hps_isw_handoff/soc_system_hps_0/sequencer.c:5300-5443 | For any first pin: a group whose windows all meet the swept range succeeds iff each bit needs no more than the data chain, or what the clamp leaves still reaches its window |
| `ReadDeskew.FirstGroupSucceedsIff` | hw/quartus/hps_isw_handoff/soc_system_hps_0/sequencer.c:5353-5363 | For a group that starts at pin 0: success iff the end of the data chain brings every bit to the near edge of its window at the new strobe delay |
| `ReadDeskew.LaterGroupSucceedsIff` | hw/quartus/hps_isw_handoff/soc_system_hps_0/sequencer.c:5353-5363 | For a group that starts beyond its own width: success is decided by the delays that pins 0, 1, .. of the interface held before |
| `ReadDeskew.CentringIsOptimal` | hw/quartus/hps_isw_handoff/soc_system_hps_0/sequencer.c:5300-5379 | Every bit whose delay is not cut off has margins that differ by at most one tap, whether or not the strobe was clamped; if no bit is cut off the group succeeds |
| `ReadDeskew.StrobeIsHalfway` | hw/quartus/hps_isw_handoff/soc_system_hps_0/sequencer.c:5311-5339 | The strobe goes back by half the smallest offset, rounded up, or to the end of its chain nearest to that; if the chain does not stop it, the bits of smallest offset, of which there is one, keep data delay 0 |
| `ReadDeskew.ClampReadsTheWrongPin` | hw/quartus/hps_isw_handoff/soc_system_hps_0/sequencer.c:5359-5361 | For two windows in reach (chains of 3 taps, strobe at 0) a later group is deskewed iff pin 0 of the interface holds no delay, because the upper clamp subtracts the delay of pin i instead of pin p |
| `ReadDeskew.NarrowAtPinZero` | hw/quartus/hps_isw_handoff/soc_system_hps_0/sequencer.c:5359-5361 | The same two windows at pin 0 are always deskewed |
| `ReadDeskew.WrongPinOccurs` | hw/quartus/hps_isw_handoff/soc_system_hps_0/sequencer.c:5094-5443 | A call of the whole function on these windows: it succeeds at pin 0, and at pin 2 iff pin 0 holds no delay |
| `ReadDeskew.ReadPath.Probe` | hw/quartus/hps_isw_handoff/soc_system_hps_0/sequencer.c:5144-5150 | One read test shows for each bit whether the programmed delays lie in its window |
| `ReadDeskew.ReadPath.SweepDq` | hw/quartus/hps_isw_handoff/soc_system_hps_0/sequencer.c:5138-5177 | The data sweep finds the edges on the data side and leaves all data delays of the group at zero |
| `ReadDeskew.ReadPath.ResetEdges` | hw/quartus/hps_isw_handoff/soc_system_hps_0/sequencer.c:5178-5200 | A right edge without a left edge is dropped, and exactly the bits that already have both edges are marked as seen |
| `ReadDeskew.ReadPath.SweepDqs` | hw/quartus/hps_isw_handoff/soc_system_hps_0/sequencer.c:5202-5260 | The strobe sweep completes the edges of every bit |
| `ReadDeskew.ReadPath.FindEdges` | hw/quartus/hps_isw_handoff/soc_system_hps_0/sequencer.c:5130-5260 | The two sweeps yield the true edges of every bit clipped to the swept range, or a sentinel for a bit whose window is out of reach |
| `ReadDeskew.ReadPath.MoveStrobe` | hw/quartus/hps_isw_handoff/soc_system_hps_0/sequencer.c:5311-5339 | The strobe moves by half the minimum offset as far as its chain allows (StrobeIsHalfway says where that is) |
| `ReadDeskew.ReadPath.CentreDq` | hw/quartus/hps_isw_handoff/soc_system_hps_0/sequencer.c:5352-5379 | Every data pin of the group is programmed within its chain to the aligned position, and the margins are the least distances to the edges |
| `ReadDeskew.ReadPath.VfifoCenter` | hw/quartus/hps_isw_handoff/soc_system_hps_0/sequencer.c:5094-5443 | Success implies that every bit passes at the delays programmed; only registers of the group change and stay in range; on a bit out of reach the strobe is restored and that bit is reported; otherwise the strobe goes half way to the smallest offset, the group is centred and the verdict is that of CentredSucceedsIff |
| `DmSearch.NoteKeeps` | hw/quartus/hps_isw_handoff/soc_system_hps_0/sequencer.c:7661-7681 | One more test result keeps the first longest run of what has been tested so far, and the run that is still open |
| `DmSearch.ScanJoins` | hw/quartus/hps_isw_handoff/soc_system_hps_0/sequencer.c:7686-7693 | Testing position zero on both axes, and dropping an open run that does not end at zero, leaves the result of one scan over the joined axis: a run across zero is neither split nor counted twice |
| `DmSearch.ExitIsHarmless` | hw/quartus/hps_isw_handoff/soc_system_hps_0/sequencer.c:7724-7727 | The early exit never changes the best run |
| `DmSearch.ScanFinds` | hw/quartus/hps_isw_handoff/soc_system_hps_0/sequencer.c:7656-7730 | For any outcomes the scan finds the first longest run of passing positions, or reports that nothing passed |
| `DmSearch.DmVerdict` | hw/quartus/hps_isw_handoff/soc_system_hps_0/sequencer.c:7732-7763 | The mask margin is non-negative iff the first longest run begins on the mask side or at zero, and then the programmed mask delay is one at which the test passed, also where the middle is clamped to zero |
| `DmSearch.DmMidIsMiddle` | hw/quartus/hps_isw_handoff/soc_system_hps_0/sequencer.c:7743-7751 | The programmed mask delay is equally far from both ends of the run but for one tap, or zero when the middle lies on the strobe side |
| `DmSearch.LongerStrobeRunHidesMaskRun` | hw/quartus/hps_isw_handoff/soc_system_hps_0/sequencer.c:7745-7758 | A usable run on the mask side does not help if a longer one lies on the strobe side: outcomes for which calibration fails although a mask delay passed |
| `WriteDeskew.DataSucceedsIff` | hw/quartus/hps_isw_handoff/soc_system_hps_0/sequencer.c:7413-7491 | With the strobe left in place the data pins calibrate iff every window reaches a position on the data side, and then every bit passes where it is programmed |
| `WriteDeskew.OutIsCentred` | hw/quartus/hps_isw_handoff/soc_system_hps_0/sequencer.c:7413-7499 | Every data pin sits in the middle of its window within one tap, or at delay 0 when the middle is not on the data side |
| `WriteDeskew.MaskSearchFinds` | hw/quartus/hps_isw_handoff/soc_system_hps_0/sequencer.c:7656-7730 | The search finds the first longest run where a position up to zero is a mask delay at the starting strobe and one above zero a strobe shift without mask delay |
| `WriteDeskew.MaskIsCentred` | hw/quartus/hps_isw_handoff/soc_system_hps_0/sequencer.c:7743-7758 | The mask delay programmed stands in the middle of the first longest run of passing mask tests |
| `WriteDeskew.SeenStop` | hw/quartus/hps_isw_handoff/soc_system_hps_0/sequencer.c:7341-7360 | On the write side too the early stop leaves final edges, and no bit is marginal then |
| `WriteDeskew.WritePath.FindEdges` | hw/quartus/hps_isw_handoff/soc_system_hps_0/sequencer.c:7264-7388 | The two write sweeps yield the true edges of every bit clipped to the swept range, or a sentinel |
| `WriteDeskew.WritePath.MarkMarginal` | hw/quartus/hps_isw_handoff/soc_system_hps_0/sequencer.c:7352-7359 | Stopping at the first strobe tap marks exactly the bits that passed before and have no right edge |
| `WriteDeskew.WritePath.CentreDq` | hw/quartus/hps_isw_handoff/soc_system_hps_0/sequencer.c:7413-7499 | All data pins are aligned within their chains and the strobe is back at its starting value |
| `WriteDeskew.WritePath.SearchMaskSide` | hw/quartus/hps_isw_handoff/soc_system_hps_0/sequencer.c:7656-7683 | Half the mask search: every mask delay from the maximum to zero is tested once |
| `WriteDeskew.WritePath.SearchStrobeSide` | hw/quartus/hps_isw_handoff/soc_system_hps_0/sequencer.c:7686-7730 | With the second half and its early exit, the best run is that of one plain scan over the joined axis |
| `WriteDeskew.WritePath.CentreDm` | hw/quartus/hps_isw_handoff/soc_system_hps_0/sequencer.c:7645-7763 | The mask is programmed to the middle of the first longest run, never by a strobe shift, and the strobe is restored; without a run the delay is 0 |
| `WriteDeskew.WritePath.WritesCenter` | hw/quartus/hps_isw_handoff/soc_system_hps_0/sequencer.c:7230-7944 | Success implies that every data bit passes at its programmed delay and that the mask test was seen to pass at the programmed mask delay; with every window in reach the pins and the mask are centred; failure for a missing window reports that bit |
| `DqsEnable.Search.DecrVfifo` | hw/quartus/hps_isw_handoff/soc_system_hps_0/sequencer.c:3922-3929 | One step back of the forward-only VFIFO is one round of it less one |
| `DqsEnable.Search.Fits` | hw/quartus/hps_isw_handoff/soc_system_hps_0/sequencer.c:4043-4616 | No position of the search, and no sum of two, wraps a 32-bit word |
| `DqsEnable.Search.DtapsPerPtap` | hw/quartus/hps_isw_handoff/soc_system_hps_0/sequencer.c:4080-4092 | The count is the number of delay taps that still fit below one phase, and is below the chain maximum |
| `DqsEnable.Search.PushToFailing` | hw/quartus/hps_isw_handoff/soc_system_hps_0/sequencer.c:4120-4141 | The search stops at the second failing read, all others having passed, or after a full round with at most one failure |
| `DqsEnable.Search.FirstPhase` | hw/quartus/hps_isw_handoff/soc_system_hps_0/sequencer.c:4145-4192 | The setting found is the first that passes in the order delay, turn, phase with phase 0 left out; every setting before it was tested and failed, and the position is that of the setting |
| `DqsEnable.Search.BackOff` | hw/quartus/hps_isw_handoff/soc_system_hps_0/sequencer.c:4196-4318 | From a first hit at delay 0, the beginning moves to the first passing delay of the phase before, if there is one and that phase can be set; VFIFO and phase return to just past the hit |
| `DqsEnable.Search.GoForward` | hw/quartus/hps_isw_handoff/soc_system_hps_0/sequencer.c:4320-4377 | Every phase passed up to the one that fails, except that a failure at the very first one moves the beginning there; the end position keeps its distance from the true one |
| `DqsEnable.Search.BackToPassing` | hw/quartus/hps_isw_handoff/soc_system_hps_0/sequencer.c:4379-4402 | Backing off skips phase 0 and keeps the distance of the end position from the true one |
| `DqsEnable.Search.DelayToFailing` | hw/quartus/hps_isw_handoff/soc_system_hps_0/sequencer.c:4428-4443 | Every delay before the failing one passed, and the end position is that of the last passing delay |
| `DqsEnable.Search.FindWindow` | hw/quartus/hps_isw_handoff/soc_system_hps_0/sequencer.c:4145-4477 | The recorded end plus the lag (one phase after a first hit at delay 0 and phase 1, else nothing) is the position of the last passing setting, and the beginning is that of the first passing one, where hit, backing off, first failing phase and delay sweep are those the outcomes determine; the end is exact iff the first hit was elsewhere; found iff these reads show a window that does not end before it begins |
| `DqsEnable.Search.BeginIs` | hw/quartus/hps_isw_handoff/soc_system_hps_0/sequencer.c:4196-4345 | The recorded beginning is the position of the first hit, of the delay at the phase before that passed when stepping back, or, if the first read forward failed, of that phase short of the lag |
| `DqsEnable.Search.EndIsBeforeEdge` | hw/quartus/hps_isw_handoff/soc_system_hps_0/sequencer.c:4379-4402 | After a first hit at delay 0 the end lies in the usable phase just before the one that failed |
| `DqsEnable.Search.SawUnique` | hw/quartus/hps_isw_handoff/soc_system_hps_0/sequencer.c:4145-4477 | The outcomes of the reads determine what the search sees: the first hit, the number of delays tried when backing off, the failing phase and the failing delay, or which of them does not exist |
| `DqsEnable.Search.MeasurePhase` | hw/quartus/hps_isw_handoff/soc_system_hps_0/sequencer.c:4479-4545 | The register gets the number of delay taps from the old failing delay to the next failing one after a pass, or the static count when all remaining delays were tried without a pass and then a failure; the phase is one usable phase back |
| `DqsEnable.Search.ReduceToTurn` | hw/quartus/hps_isw_handoff/soc_system_hps_0/sequencer.c:4557-4561 | The midpoint is reduced by whole turns into the range above 0 and up to one turn |
| `DqsEnable.Search.Quantise` | hw/quartus/hps_isw_handoff/soc_system_hps_0/sequencer.c:4549-4580 | The chosen phase and delay are legal and lie at or above the midpoint of the window, modulo one turn, by less than one delay tap, except for a midpoint inside phase 0, which falls back to phase 1 without delay |
| `DqsEnable.Search.PushToPassing` | hw/quartus/hps_isw_handoff/soc_system_hps_0/sequencer.c:4582-4597 | The VFIFO stops at the first turn at which the centre passes, or has failed in every turn |
| `DqsEnable.Search.FindDqsEnPhase` | hw/quartus/hps_isw_handoff/soc_system_hps_0/sequencer.c:4043-4616 | For any outcomes of the read tests: the search ends at the stage its result names; the two failing reads, the window the reads after them show and its recorded ends are tied to those outcomes; the centre of the window is programmed within range and, on success, passed in the first turn of the VFIFO that passes; no position arithmetic wraps |
| `DqsEnable.CycloneVIsLegal` | hw/quartus/hps_isw_handoff/soc_system_hps_0/sequencer_defines.h:83-112 | The constants of this build satisfy the relations that the search relies on |
| `DqsEnable.LagOccurs` | hw/quartus/hps_isw_handoff/soc_system_hps_0/sequencer.c:4213-4323 | A run with the constants of this build in which the search succeeds and the recorded end is 624 where the last passing setting lies at 936 |
| `Lfifo.StopIsUnique` | hw/quartus/hps_isw_handoff/soc_system_hps_0/sequencer.c:6164-6179 | The outcomes determine the latency at which the search stops |
| `Lfifo.ThresholdIsFound` | hw/quartus/hps_isw_handoff/soc_system_hps_0/sequencer.c:6143-6202 | If reads work exactly from a threshold up, the latency kept is one more than the threshold |
| `Lfifo.KeptLatencyTried` | hw/quartus/hps_isw_handoff/soc_system_hps_0/sequencer.c:6164-6193 | The latency kept is one that was tried iff the latency below the starting one passed as well; otherwise it lies above all that were tried |
| `Lfifo.Phy.Calibrate` | hw/quartus/hps_isw_handoff/soc_system_hps_0/sequencer.c:6143-6219 | It fails iff the starting latency fails, and then reports it and keeps the latency; on success every latency from the result less one up to the start passed and the one below failed (or is 0), in 32 bits; a start of 0 is tried once and the counter then wraps around |
| `VfifoStage.Stage.CentreAll` | hw/quartus/hps_isw_handoff/soc_system_hps_0/sequencer.c:5922-5954 | The attempt counts as centred iff every shadow register that takes part is, each started from the original strobe delay; it reports exactly what they report, in order, and leaves the strobe delay of the last of them |
| `VfifoStage.Stage.Round` | hw/quartus/hps_isw_handoff/soc_system_hps_0/sequencer.c:5844-5985 | The round in place is the specified one: attempts at the strobe delays from the one in the register upward until the first success or the maximum, with their reports and the strobe delay they leave |
| `VfifoStage.Stage.Phases` | hw/quartus/hps_isw_handoff/soc_system_hps_0/sequencer.c:5806-5988 | The output phases in place are the specified ones: each starts with its own guaranteed read, one that fails ends them without a further attempt, and a success ends them |
| `VfifoStage.Stage.Calibrate` | hw/quartus/hps_isw_handoff/soc_system_hps_0/sequencer.c:5748-6009 | For any outcomes: verdict, attempts, guaranteed reads, strobe delay and reports are those of the specified run, a failure is reported last, and the output chains are put back to zero exactly after a success at a raised output delay |
| `VfifoStage.Setup.RunMeans` | hw/quartus/hps_isw_handoff/soc_system_hps_0/sequencer.c:5748-6009 | A run succeeds iff its last attempt does, every attempt is at a legal setting and went as the outcomes say, the reports are those of the attempts, and there is no attempt iff every guaranteed read failed |
| `VfifoStage.Setup.RunIsOrdered` | hw/quartus/hps_isw_handoff/soc_system_hps_0/sequencer.c:5785-5985 | The attempts of a run are ordered by output delay, output phase and strobe delay; within a round the strobe goes up by one, and every round begins at the delay the register held |
| `VfifoStage.Setup.FailureTriedAll` | hw/quartus/hps_isw_handoff/soc_system_hps_0/sequencer.c:5785-5985 | A run that fails although every guaranteed read passes has tried every second output delay at every output phase |
| `VfifoStage.Setup.NoGuaranteedRead` | hw/quartus/hps_isw_handoff/soc_system_hps_0/sequencer.c:5806-5820 | If no guaranteed read passes, one is made per output delay and nothing is attempted |
| `VfifoStage.Setup.RoundShape` | hw/quartus/hps_isw_handoff/soc_system_hps_0/sequencer.c:5844-5985 | A round tries consecutive strobe delays; one that fails tries all up to the maximum and leaves what its last attempt leaves |
| `VfifoStage.Setup.NextRoundStart` | hw/quartus/hps_isw_handoff/soc_system_hps_0/sequencer.c:5844-5848 | After a failing round the register holds the maximum if its last phase search failed, else what centring left; a next round that fails tries one strobe delay iff that is the maximum |
| `VfifoStage.Setup.PassReportsNothingIff` | hw/quartus/hps_isw_handoff/soc_system_hps_0/sequencer.c:5922-5998 | A stage that passes reports nothing iff no centring of its attempts reported anything |
| `VfifoStage.Setup.ReportsNamed` | hw/quartus/hps_isw_handoff/soc_system_hps_0/sequencer.c:5990-5998 | If centring reports only failures of a stage so does the read stage, and it reports one if it fails |
| `VfifoStage.Setup.FailureIsReported` | hw/quartus/hps_isw_handoff/soc_system_hps_0/sequencer.c:5990-5998 | A failing stage reports its own failure last, blamed on the guaranteed read if none passed, on the phase search if that of the last attempt failed, else on centring |
| `VfifoStage.LaterRoundsTryOneDelay` | hw/quartus/hps_isw_handoff/soc_system_hps_0/sequencer.c:5844-5848 | A run in which the first round sweeps the strobe from 4 to 31 and the rounds at the next two output delays try 31 only |
| `VfifoStage.RetryReports` | hw/quartus/hps_isw_handoff/soc_system_hps_0/sequencer.c:5922-5998 | A run whose first attempt fails and whose second passes: the stage passes with the report of the first on its log |
| `MemCalibrate.Plan.GroupVerdict` | hw/quartus/hps_isw_handoff/soc_system_hps_0/sequencer.c:9239-9321 | A write group passes iff all its enabled stages pass, although later stages do not run after a failure |
| `MemCalibrate.Plan.GroupsVerdict` | hw/quartus/hps_isw_handoff/soc_system_hps_0/sequencer.c:9208-9404 | In either mode the groups pass iff every group that is not masked out passes every enabled stage |
| `MemCalibrate.Plan.GroupsPrefix` | hw/quartus/hps_isw_handoff/soc_system_hps_0/sequencer.c:9208-9404 | Stopping at the first failure reports a prefix of what a sweep over all groups reports, and has the same verdict |
| `MemCalibrate.Plan.GroupsSilentIff` | hw/quartus/hps_isw_handoff/soc_system_hps_0/sequencer.c:9208-9404 | Groups that pass report nothing iff no stage call of a group that runs reported anything |
| `MemCalibrate.Plan.FirstFailureIsRecorded` | hw/quartus/hps_isw_handoff/soc_system_hps_0/sequencer.c:591-611 | The recorded failure is the first one reported, names a stage, and is the same in both modes |
| `MemCalibrate.Plan.FirstReportOfGroup` | hw/quartus/hps_isw_handoff/soc_system_hps_0/sequencer.c:9239-9321 | The first report of a group is that of its first reporting stage call, in the order read stages, write deskew, second read deskews |
| `MemCalibrate.Plan.FirstReportOfGroups` | hw/quartus/hps_isw_handoff/soc_system_hps_0/sequencer.c:9208-9404 | The first report of a calibration is that of the first group that runs and reports |
| `MemCalibrate.Sequencer.RunsFromMask` | hw/quartus/hps_isw_handoff/soc_system_hps_0/sequencer.c:9206-9232 | The shifted mask of a write group is zero iff each of its read groups is masked out |
| `MemCalibrate.Sequencer.CalibrateGroups` | hw/quartus/hps_isw_handoff/soc_system_hps_0/sequencer.c:9206-9404 | The nested loops with their early returns yield the verdict and the reports of the specification in both modes |
| `MemCalibrate.Sequencer.SearchLatency` | hw/quartus/hps_isw_handoff/soc_system_hps_0/sequencer.c:9406-9413 | The latency search runs only after groups that passed; it fails iff the starting latency does, and is reported then |
| `MemCalibrate.Sequencer.Calibrate` | hw/quartus/hps_isw_handoff/soc_system_hps_0/sequencer.c:9149-9437 | 1 is returned iff every group not masked out passes every enabled stage and, if the latency search runs, the starting latency works; it runs iff neither it nor calibration is to be skipped and no group is masked out, and only then can the latency change; the failure on record is the first a group reported, else that of the latency search, else none; after a pass there is none iff no stage call that ran reported anything |
| `MemCalibrate.StageIsHonest` | hw/quartus/hps_isw_handoff/soc_system_hps_0/sequencer.c:5990-5998 | The read stage is a stage as the orchestrator expects it: a failure is reported and names a stage |
| `MemCalibrate.PassWithFailureOnRecord` | hw/quartus/hps_isw_handoff/soc_system_hps_0/sequencer.c:5850-5998 | A passing calibration with a failure on record: the read stage is the run of RetryReports, everything else passes silently |
| `Board.ReadSucceedsIff` | hw/quartus/hps_isw_handoff/soc_system_hps_0/sequencer.c:5094-5443 | Read deskew of a group succeeds iff every window is in reach and the data chain brings every bit to the near edge of its window |
| `Board.WriteSucceedsIff` | hw/quartus/hps_isw_handoff/soc_system_hps_0/sequencer.c:7230-7944 | Write deskew of a group succeeds iff every window is in reach and reaches the data side, and the first longest run of the mask test starts on the mask side |
| `Board.ReadStrobeIsHalfway` | hw/quartus/hps_isw_handoff/soc_system_hps_0/sequencer.c:5311-5339 | With every window in reach the strobe of a read group goes half way to the smallest offset |
| `Board.DeskewReads` | hw/quartus/hps_isw_handoff/soc_system_hps_0/sequencer.c:5094-5443 | Read deskew in place leaves exactly the verdict, the registers and the report that the windows and the starting strobe delay determine |
| `Board.DeskewWrites` | hw/quartus/hps_isw_handoff/soc_system_hps_0/sequencer.c:7230-7944 | The same for write deskew and the mask pin |
| `Board.CalibrateEnd` | hw/quartus/hps_isw_handoff/soc_system_hps_0/sequencer.c:6091-6137 | The second read deskew has the outcome that the plan of the board gives it; after a success every bit of the group reads at the delays in the registers |
| `Board.CalibrateWrites` | hw/quartus/hps_isw_handoff/soc_system_hps_0/sequencer.c:8132-8154 | Write calibration has the outcome that the plan of the board gives it; after a success every bit and the mask write at the delays in the registers |
| `Board.Board.PlanIsHonest` | hw/quartus/hps_isw_handoff/soc_system_hps_0/sequencer.c:5990-5998 | Every stage of a board reports a failure that names a stage when it fails |
| `Board.Board.StageReports` | hw/quartus/hps_isw_handoff/soc_system_hps_0/sequencer.c:8132-8154 | What write deskew and the second read deskew (6091-6137) report: the first bit out of reach counted over the interface, then their group, or nothing on success |
| `Board.Board.GroupsPassIff` | hw/quartus/hps_isw_handoff/soc_system_hps_0/sequencer.c:9208-9404 | In either mode the groups pass iff in every group that runs the read stage, write deskew and the second read deskew succeed |
| `Board.Board.PassingBoardWorks` | hw/quartus/hps_isw_handoff/soc_system_hps_0/sequencer.c:9208-9404 | If the groups pass, then in every group that runs every bit reads and writes, and the mask writes, at the delays programmed last |
| `Board.CalibrateBoard` | hw/quartus/hps_isw_handoff/soc_system_hps_0/sequencer.c:9149-9437 | The orchestrator over these stages passes iff every group that runs is deskewed and, when it is not to be skipped and no group is masked out, the starting latency works; after a pass every bit of every group that runs works (unless the shadow register is skipped), and no failure is on record iff no stage reported any |
| `DelayLoop.ScalingCoversIff` | hw/quartus/hps_isw_handoff/soc_system_hps_0/sequencer.c:2028 | The scaled count is the least that covers the requested clocks iff rounding up does not overflow; if it does the count is 0 |
| `DelayLoop.RwManager.RunSingleGroup` | hw/quartus/hps_isw_handoff/soc_system_hps_0/sequencer_auto_inst_init.c:156-158 | The idle program executes one step more than its counter, and as a nested loop the product of both |
| `DelayLoop.RwManager.Idle` | hw/quartus/hps_isw_handoff/soc_system_hps_0/sequencer.c:2030-2085 | Exactly the requested steps up to 256 (at least one), less than 256 too many up to 65536, less than 65536 too many beyond |
| `DelayLoop.RwManager.DelayForNMemClocks` | hw/quartus/hps_isw_handoff/soc_system_hps_0/sequencer.c:2019-2088 | The delay is as long as requested iff rounding the request up does not overflow; if it does, one step is all the delay there is |
| `Mailbox.ApplyConsistent` | hw/quartus/hps_isw_handoff/soc_system_hps_0/tclrpt.c:107-157 | Every command keeps a shadow register skipped iff all ranks it serves are skipped, and masks no group beyond the interface |
| `Mailbox.ApplyAllConsistent` | hw/quartus/hps_isw_handoff/soc_system_hps_0/tclrpt.c:107-157 | The same after any sequence of commands since start-up |
| `Mailbox.MasksFromHistory` | hw/quartus/hps_isw_handoff/soc_system_hps_0/tclrpt.c:674-757 | After any commands a group or rank is skipped iff some command marked it and no later command marked all as valid |
| `Mailbox.FlagsFromHistory` | hw/quartus/hps_isw_handoff/soc_system_hps_0/tclrpt.c:674-757 | Three flags are set iff their command was ever issued, and the non-destructive one iff its last command had an argument other than zero |
| `Mailbox.RefusedIff` | hw/quartus/hps_isw_handoff/soc_system_hps_0/tclrpt.c:674-757 | A command is refused iff its code is unknown or its argument names no group or rank, and then changes nothing |
| `Mailbox.Device.UpdateShadow` | hw/quartus/hps_isw_handoff/soc_system_hps_0/tclrpt.c:141-154 | The loop with its early exit recomputes exactly the shadow register mask |
| `Mailbox.Device.Handle` | hw/quartus/hps_isw_handoff/soc_system_hps_0/tclrpt.c:674-757 | A command changes the configuration and is answered as specified, illegal arguments leaving the configuration alone |
| `Mailbox.Device.LoopPass` | hw/quartus/hps_isw_handoff/soc_system_hps_0/tclrpt.c:639-775 | One undisturbed pass of the endless loop is exactly the sequence of steps the protocol gives the device between two polls |
| `Mailbox.ExactlyOnce` | hw/quartus/hps_isw_handoff/soc_system_hps_0/tclrpt.c:639-775 | In every interleaving the commands executed are the commands issued, in order and each once, but for at most the last; none is executed again before it is acknowledged |
| `Mailbox.NothingIsLost` | hw/quartus/hps_isw_handoff/soc_system_hps_0/tclrpt.c:639-775 | Whatever has been issued has been executed after three further steps of the device, whatever the host does |
| `Mailbox.ConfiguredByIssued` | hw/quartus/hps_isw_handoff/soc_system_hps_0/tclrpt.c:674-757 | In every reachable state the configuration is what the issued commands (up to the last) say, with consistent masks |
| `Mailbox.AnsweredTruthfully` | hw/quartus/hps_isw_handoff/soc_system_hps_0/tclrpt.c:639-775 | In every reachable state a host that has been answered sees the answer to its last command, and the device has left its loop only after the command to update the parameters |
| `Mailbox.StatusFirstLosesCommand` | hw/quartus/hps_isw_handoff/soc_system_hps_0/tclrpt.c:613-622 | Writing the status before the command word loses a command: whatever steps of device and host follow, it is never executed and its host waits |
| `Mailbox.WaitCodeIsLost` | hw/quartus/hps_isw_handoff/soc_system_hps_0/tclrpt.c:680-682 | A host that issues the code of the wait command is never served, whatever steps of device and host follow |
| `Mailbox.AckCodeAnswersItself` | hw/quartus/hps_isw_handoff/soc_system_hps_0/tclrpt.c:661-671 | The acknowledge code issued as a command acknowledges its own answer before the host has seen it |
| `FdTable.LockInv` | sw/nios/application/Frame_Test_bsp/HAL/src/alt_fd_lock.c:54-75 | Granting a lock keeps the invariant although the scan stops short of the high-water mark: a descriptor it misses has the higher index |
| `FdTable.NextInv` | sw/nios/application/Frame_Test_bsp/HAL/src/alt_ioctl.c:106-168 | Every call keeps the invariant: any other descriptor for a held device has a higher index and does not hold it |
| `FdTable.AtMostOneHolder` | sw/nios/application/Frame_Test_bsp/HAL/src/alt_fd_lock.c:54-75 | After any calls since boot a device has at most one holder, which has the lowest index of all descriptors for it |
| `FdTable.HeldDeviceGainsNone` | sw/nios/application/Frame_Test_bsp/HAL/src/alt_open.c:64-88 | While a device is held no new descriptor for it comes into being, however long the run |
| `FdTable.OpenSucceedsIff` | sw/nios/application/Frame_Test_bsp/HAL/src/alt_open.c:105-171 | An open succeeds iff the target exists, a descriptor is free, no descriptor holds the device and the driver agrees |
| `FdTable.OpenConserves` | sw/nios/application/Frame_Test_bsp/HAL/src/alt_open.c:105-171 | A failed open leaves the set of allocated descriptors unchanged; a successful one adds exactly the lowest free index |
| `FdTable.OpenTakes` | sw/nios/application/Frame_Test_bsp/HAL/src/alt_open.c:105-171 | A successful open fills one free slot with the caller's flags, marked as a device's iff it is one and not locked, and raises the mark; a failed one returns -1 with the error of its cause |
| `FdTable.UnlockClears` | sw/nios/application/Frame_Test_bsp/HAL/src/alt_fd_unlock.c:52-56 | Unlocking drops the lock bit of that descriptor and nothing else |
| `FdTable.UnlockEndsLock` | sw/nios/application/Frame_Test_bsp/HAL/src/alt_ioctl.c:134-137 | Once the holder has unlocked nobody holds the device, and an open of it succeeds if a descriptor is free and the driver agrees |
| `FdTable.LockSets` | sw/nios/application/Frame_Test_bsp/HAL/src/alt_ioctl.c:127-133 | A lock is granted by setting that bit alone, or refused with EACCES |
| `FdTable.OtherRequests` | sw/nios/application/Frame_Test_bsp/HAL/src/alt_ioctl.c:140-168 | Any other request is answered by the driver, or with ENOTTY, and changes no descriptor |
| `FdTable.CloseFrees` | sw/nios/application/Frame_Test_bsp/HAL/src/alt_close.c:64-101 | Closing frees a descriptor above 2 whatever the driver answers and touches no other |
| `FdTable.CloseEndsLock` | sw/nios/application/Frame_Test_bsp/HAL/src/alt_close.c:64-101 | Closing the descriptor that holds a device ends the lock |
| `FdTable.FcntlSets` | sw/nios/application/Frame_Test_bsp/HAL/src/alt_fcntl.c:66-101 | Setting flags gives bits 3 and 14 the values asked for and leaves every other bit and descriptor |
| `FdTable.RedirectMoves` | sw/nios/application/Frame_Test_bsp/HAL/src/alt_io_redirect.c:58-94 | A redirection leaves the standard descriptor on the new target and the same descriptors in use; a failed one leaves them all as they were |
| `FdTable.StandardDescriptorsStay` | sw/nios/application/Frame_Test_bsp/HAL/src/alt_release_fd.c:44-51 | After any calls descriptors 0 to 2 are allocated and every allocated index is at most the larger of 2 and the high-water mark |
| `FdTable.GrantedThoughSharedIff` | sw/nios/application/Frame_Test_bsp/HAL/src/alt_fd_lock.c:60-68 | A lock is granted on a device that is open elsewhere exactly when the only other descriptor is the one at the high-water mark |
| `FdTable.GrantedThoughShared` | sw/nios/application/Frame_Test_bsp/HAL/src/alt_fd_lock.c:60-68 | It happens: two opens of a device and a lock by the first |
| `FdTable.Pool.constructor` | sw/nios/application/Frame_Test_bsp/HAL/src/alt_dev.c:118-149 | Three descriptors for the null device, all others free, no flags, and the mark below them; the invariant holds |
| `FdTable.Pool.GetFd` | sw/nios/application/Frame_Test_bsp/HAL/src/alt_get_fd.c:54-101 | The lowest free descriptor is taken and the mark raised to it, or the pool is unchanged |
| `FdTable.Pool.ReleaseFd` | sw/nios/application/Frame_Test_bsp/HAL/src/alt_release_fd.c:44-51 | A descriptor above 2 is freed and any other left alone |
| `FdTable.Pool.FileLocked` | sw/nios/application/Frame_Test_bsp/HAL/src/alt_open.c:64-88 | Access is refused iff another descriptor up to the mark holds the device; the scan runs only with a mark in range, so its unsigned index never meets -1 |
| `FdTable.Pool.Open` | sw/nios/application/Frame_Test_bsp/HAL/src/alt_open.c:105-171 | The steps in place, with their clean-up, produce the specified table and result and keep the invariant |
| `FdTable.Pool.FdLock` | sw/nios/application/Frame_Test_bsp/HAL/src/alt_fd_lock.c:54-75 | The lock is granted iff no other descriptor below the mark refers to the device |
| `FdTable.Pool.FdUnlock` | sw/nios/application/Frame_Test_bsp/HAL/src/alt_fd_unlock.c:52-56 | Only the lock of that descriptor is dropped |
| `FdTable.Pool.Ioctl` | sw/nios/application/Frame_Test_bsp/HAL/src/alt_ioctl.c:106-168 | Lock requests are handled for device descriptors only, anything else goes to the driver; the invariant is kept |
| `FdTable.Pool.Close` | sw/nios/application/Frame_Test_bsp/HAL/src/alt_close.c:64-101 | The descriptor is freed (0 to 2 never are) whatever the driver answers; the invariant is kept |
| `FdTable.Pool.Fcntl` | sw/nios/application/Frame_Test_bsp/HAL/src/alt_fcntl.c:66-101 | Only the append and non-blocking flags change; the lock and device marks are neither changed nor shown |
| `FdTable.Pool.IoRedirect` | sw/nios/application/Frame_Test_bsp/HAL/src/alt_io_redirect.c:58-94 | Redirecting the three channels is a run of open, copy and release that keeps the invariant |
| `Digits.CountIsExact` | sw/nios/application/Frame_Test_bsp/HAL/src/alt_log_printf.c:247-255 | The digit count is exact: the number lies between the two powers of the base around it |
| `Digits.TopDigit` | sw/nios/application/Frame_Test_bsp/HAL/src/alt_log_printf.c:281-296 | Dividing by the largest place value takes the top digit off and leaves the lower digits |
| `Digits.NibbleSplits` | sw/nios/application/Frame_Test_bsp/HAL/src/alt_printf.c:99-112 | The hexadecimal digit at a place, and the places below it |
| `Digits.MaskedIsNibble` | sw/nios/application/Frame_Test_bsp/HAL/src/alt_printf.c:95-104 | Masking the word with four ones at a place and shifting it down yields the digit there, and the masked word is zero iff that digit is |
| `Printf.FieldReadsBack` | sw/nios/application/Frame_Test_bsp/HAL/src/alt_log_printf.c:206-297 | An integer field reads back as the signed or unsigned value of the word, for every base, width and padding |
| `Printf.FieldLength` | sw/nios/application/Frame_Test_bsp/HAL/src/alt_log_printf.c:257-279 | The field is as long as the larger of the width and the digits with the sign |
| `Printf.NoLeadingZero` | sw/nios/application/Frame_Test_bsp/HAL/src/alt_log_printf.c:247-255 | The digits of a number other than zero do not begin with a zero |
| `Printf.HexAgrees` | sw/nios/application/Frame_Test_bsp/HAL/src/alt_printf.c:84-113 | A hexadecimal field without width is the plain numeral of the other printer |
| `Printf.IntegerConversion` | sw/nios/application/Frame_Test_bsp/HAL/src/alt_log_printf.c:206-317 | For every width, flag and precision in a format: d and i print the signed value in base 10, u, o, x and X the unsigned one in base 10, 8, 16 and 16, as long as the width or what the number needs, with blanks before the sign or zeros after it, upper case for X only; each takes one argument |
| `Printf.TextConversion` | sw/nios/application/Frame_Test_bsp/HAL/src/alt_log_printf.c:319-334 | A character or string is printed after blanks up to the width |
| `Printf.UnknownConversion` | sw/nios/application/Frame_Test_bsp/HAL/src/alt_log_printf.c:200-337 | Any other letter prints nothing and takes no argument |
| `Printf.Literal` | sw/nios/application/Frame_Test_bsp/HAL/src/alt_log_printf.c:130-152 | Text without percent signs is printed as it stands by both printers |
| `Printf.PrintersAgree` | sw/nios/application/Frame_Test_bsp/HAL/src/alt_printf.c:50-132 | On every format both understand, the two printers print the same characters for the same arguments |
| `Printf.DecimalDisagrees` | sw/nios/application/Frame_Test_bsp/HAL/src/alt_printf.c:72-121 | Outside that fragment they differ: a decimal conversion prints nothing in the small printer |
| `Printf.CountDigits` | sw/nios/application/Frame_Test_bsp/HAL/src/alt_log_printf.c:247-255 | The loop finds the digit count and the largest place value without overflowing the word |
| `Printf.PrintDigits` | sw/nios/application/Frame_Test_bsp/HAL/src/alt_log_printf.c:281-296 | The division loop prints the digits of the number, most significant first |
| `Printf.PrintInteger` | sw/nios/application/Frame_Test_bsp/HAL/src/alt_log_printf.c:206-297 | Sign, padding and digits make up the field of the word |
| `Printf.PrintHex` | sw/nios/application/Frame_Test_bsp/HAL/src/alt_printf.c:84-113 | The search for the first digit and the loop of masks and shifts print the numeral of the word without leading zeros |
| `Printf.LogPrintf` | sw/nios/application/Frame_Test_bsp/HAL/src/alt_log_printf.c:114-341 | The state machine over the format prints what its steps print, in order (IntegerConversion and the rows after it say what that is) |
| `Printf.AltPrintf` | sw/nios/application/Frame_Test_bsp/HAL/src/alt_printf.c:50-132 | The pointer walk prints what the recursive reading of the format prints |
| `I2c.WriteIsLegal` | sw/nios/application/i2c/i2c.c:211-248 | Whatever the device acknowledges, a write starts with a START on the device address, obeys the bus rules, and has commanded a STOP on return unless it had nothing to send and succeeded |
| `I2c.ReadIsLegal` | sw/nios/application/i2c/i2c.c:260-299 | The same for a read with its repeated START; exactly the last byte is refused before the STOP |
| `I2c.WriteSends` | sw/nios/application/i2c/i2c.c:211-248 | A write succeeds iff every byte it sent was acknowledged, and then it sent exactly address, index and payload |
| `I2c.ReadReceives` | sw/nios/application/i2c/i2c.c:260-299 | A read succeeds iff both addresses and the index were acknowledged, and then it returns exactly the bytes that came in, in order |
| `I2c.WriteRefused` | sw/nios/application/i2c/i2c.c:211-248 | A write answers 1 iff the address was refused and 2 iff the index or a payload byte was; after the refused byte there is a STOP and nothing else |
| `I2c.ReadRefused` | sw/nios/application/i2c/i2c.c:260-299 | A read answers 1 iff one of the two addresses was refused and 2 iff the index was, with a STOP and nothing else after it |
| `I2c.WriteStores` | sw/nios/application/cmos_sensor_output_generator/custom_functions/function_i2c.c:8-18 | Against the register device a 16-bit write stores that register and no other, and fails without effect iff the address is another |
| `I2c.HighByteFirst` | sw/nios/application/cmos_sensor_output_generator/custom_functions/function_i2c.c:8-31 | The first byte of a register is the high one, in both directions |
| `I2c.ReadYields` | sw/nios/application/cmos_sensor_output_generator/custom_functions/function_i2c.c:20-31 | Against the register device a 16-bit read yields the register and changes none |
| `I2c.RegisterRoundTrip` | sw/nios/application/cmos_sensor_output_generator/custom_functions/function_i2c.c:48-63 | A register written and read back returns the value, and only that register has changed |
| `I2c.Master.Write` | sw/nios/application/i2c/i2c.c:211-248 | The register accesses put exactly the specified commands on the bus and return the specified code |
| `I2c.Master.Read` | sw/nios/application/i2c/i2c.c:260-299 | The same, with the buffer filled on success and untouched on failure |
| `I2c.Master.ReadRegister` | sw/nios/application/cmos_sensor_output_generator/custom_functions/function_i2c.c:20-31 | The value is joined high byte first, and is untouched unless the read succeeds |
| `I2c.Master.WriteAndRead` | sw/nios/application/cmos_sensor_output_generator/custom_functions/function_i2c.c:48-63 | It succeeds against the register device iff the address is right; the register then holds the value, the others are unchanged and the bus is free |

## Left out

- ReadDeskew.ReadPath.VfifoCenter: the figure of merit is an unbounded sum for equal numbers of read and write groups, where the code divides by their ratio and wraps at 32 bits; the word of a write test is taken at lane 0, as for one read group per write group.
- WriteDeskew.WritePath.WritesCenter: the figure of merit is an unbounded sum, where the code wraps at 32 bits; recovery of the memory after a failing strobe tap is not modelled.
- BitCheck.BitTest: reads of several tries, as the hardware counters repeat them, are one outcome per (rank, virtual group).
- MemCalibrate.Sequencer.Calibrate: each read, write and second read stage is one outcome with the failures it reports, required to report at least one when it fails (sequencer.c:5995, 6132, 8149; for the read stage `VfifoStage.Stage.Calibrate` proves it).
- VfifoStage.Stage.Calibrate: phase search and centring are outcomes per attempt, with the strobe delay that centring leaves; pattern loading and recovery of the memory between attempts are not modelled.
- Board.CalibrateBoard: one read group per write group and one shadow register, as in this build; the registers of a group are its own, so that calibrating one group does not touch another; the phase search of an attempt is an outcome, its windows are given per attempt.
- DqsEnable.Search.FindDqsEnPhase: the working-phase count kept for the report is not modelled.
- Mailbox.Device.Handle: the commands that only exist with delay chain writing enabled are not part of this build; calibration itself as the effect of a command, and the reported rank mask and counts, are not modelled.
- FdTable.Pool.Open: the descriptor's private word, name look-up in the device lists and the semaphores are not modelled; drivers may answer anything but do not touch the pool; descriptors beyond the pool, which the code does not check, are excluded.
- Printf.LogPrintf: widths are unbounded integers, where the code uses 32 bits; output devices are a sequence of characters.
- I2c.Master.Write: the polling loops end as soon as they are asked; clock divider and interrupt configuration are not modelled.
- The edge buffers of the two deskew functions are local sequences rather than arrays on the stack, and the pass bits a word of booleans.
- Memory-mapped I/O addresses, memory initialisation and handoff, ODT masks, HPS controller set-up: straight-line writes.
- Other memory protocols and families, write levelling (off on Cyclone V), simulation and report printing.
- Camera, LCD, memory test and pattern generator programs: register pokes and range checks a single reading settles.
- The remaining HAL stubs, interrupt entry, caches, profiling, alarms and time.
