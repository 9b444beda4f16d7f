/** The debug mailbox: `tclrpt_loop` against a host that shares the command word with it. */
module Mailbox {
  import opened Words

  const NOP: nat := 0
  const ACK: nat := 1
  const RUN_MEM_CALIBRATE: nat := 5
  const RUN_EYE_DIAGRAM_PATTERN: nat := 6
  const MARK_ALL_DQS_GROUPS_AS_VALID: nat := 14
  const MARK_GROUP_AS_SKIP: nat := 15
  const MARK_ALL_RANKS_AS_VALID: nat := 17
  const MARK_RANK_AS_SKIP: nat := 18
  const ENABLE_MARGIN_REPORT: nat := 21
  const ENABLE_SWEEP_ALL_GROUPS: nat := 22
  const DISABLE_GUARANTEED_READ: nat := 23
  const SET_NON_DESTRUCTIVE_CALIBRATION: nat := 24
  const SET_UPDATE_PARAMETERS: nat := 41
  const RUN_NON_DES_MEM_CALIBRATE: nat := 42
  const WAIT_CMD: nat := 1000

  datatype Flag = MarginReport | SweepAllGroups | NoGuaranteedRead | NonDestructive

  datatype Status = CmdReady | CmdExe | IllegalCmd | ResponseReady {
    predicate Answer() { this == IllegalCmd || this == ResponseReady }
  }

  datatype Command = Command(code: nat, arg: nat) {
    /** A host command must be none of the two values the protocol itself uses. */
    predicate Proper() { code != WAIT_CMD && code != ACK }
  }

  datatype Config = Config(groups: nat, ranks: nat, ranksPerShadow: nat, shadowRegs: nat, commandFirst: bool) {
    predicate Legal()
    {
      groups <= WIDTH && 1 <= ranksPerShadow && ranks == Times(shadowRegs, ranksPerShadow)
    }
  }

  /** What the commands configure. */
  datatype Params = Params(skipGroups: Word, skipRanks: seq<bool>, skipShadow: seq<bool>, flags: set<Flag>)

  function Start(cfg: Config): Params
  {
    Params(Mask(0), seq(cfg.ranks, _ => false), seq(cfg.shadowRegs, _ => false), {})
  }

  /** A shadow register is skipped iff every rank it serves is skipped; no group beyond the interface is masked. */
  ghost predicate Consistent(cfg: Config, p: Params)
  {
    && |p.skipRanks| == cfg.ranks && |p.skipShadow| == cfg.shadowRegs
    && (forall sr :: 0 <= sr < cfg.shadowRegs ==>
         p.skipShadow[sr] == ShadowSkipped(cfg, p.skipRanks, sr))
    && NoneBeyond(cfg, p.skipGroups)
  }

  ghost predicate NoneBeyond(cfg: Config, skipGroups: Word)
  {
    forall g :: cfg.groups <= g < WIDTH ==> !skipGroups[g]
  }

  predicate AllSkipped(skip: seq<bool>, lo: int, hi: int)
  {
    forall r :: 0 <= lo <= r < hi && r < |skip| ==> skip[r]
  }

  /** Every rank of the shadow register is skipped. */
  predicate ShadowSkipped(cfg: Config, skip: seq<bool>, sr: int)
  {
    AllSkipped(skip, Times(sr, cfg.ranksPerShadow), Times(sr, cfg.ranksPerShadow) + cfg.ranksPerShadow)
  }

  /** Recompute the shadow register mask from the rank mask. */
  function Refreshed(cfg: Config, p: Params): Params
  {
    p.(skipShadow := seq(cfg.shadowRegs, sr => ShadowSkipped(cfg, p.skipRanks, sr)))
  }

  /** What one command does, and how it is answered. */
  function Apply(cfg: Config, p: Params, c: Command): (Params, Status)
  {
    if c.code == MARK_ALL_DQS_GROUPS_AS_VALID then (Refreshed(cfg, p.(skipGroups := Mask(0))), ResponseReady)
    else if c.code == MARK_GROUP_AS_SKIP then
      if c.arg < cfg.groups then (Refreshed(cfg, p.(skipGroups := Or(p.skipGroups, Shl(Mask(1), c.arg)))), ResponseReady)
      else (p, IllegalCmd)
    else if c.code == MARK_ALL_RANKS_AS_VALID then
      (Refreshed(cfg, p.(skipRanks := seq(cfg.ranks, _ => false))), ResponseReady)
    else if c.code == MARK_RANK_AS_SKIP then
      if c.arg < cfg.ranks && c.arg < |p.skipRanks| then
        (Refreshed(cfg, p.(skipRanks := p.skipRanks[c.arg := true])), ResponseReady)
      else (p, IllegalCmd)
    else if c.code == ENABLE_MARGIN_REPORT then (p.(flags := p.flags + {MarginReport}), ResponseReady)
    else if c.code == ENABLE_SWEEP_ALL_GROUPS then (p.(flags := p.flags + {SweepAllGroups}), ResponseReady)
    else if c.code == DISABLE_GUARANTEED_READ then (p.(flags := p.flags + {NoGuaranteedRead}), ResponseReady)
    else if c.code == SET_NON_DESTRUCTIVE_CALIBRATION then
      (p.(flags := if c.arg != 0 then p.flags + {NonDestructive} else p.flags - {NonDestructive}), ResponseReady)
    else if c.code in {NOP, RUN_MEM_CALIBRATE, RUN_NON_DES_MEM_CALIBRATE, RUN_EYE_DIAGRAM_PATTERN, SET_UPDATE_PARAMETERS}
      then (p, ResponseReady)
    else (p, IllegalCmd)
  }

  /** The configuration after a sequence of commands. */
  function ApplyAll(cfg: Config, log: seq<Command>): Params
  {
    if log == [] then Start(cfg) else Apply(cfg, ApplyAll(cfg, log[..|log| - 1]), log[|log| - 1]).0
  }

  lemma {:induction false} ApplyAllConsistent(cfg: Config, log: seq<Command>)
    requires cfg.Legal()
    ensures Consistent(cfg, ApplyAll(cfg, log))
  {
    if log == [] {
      StartConsistent(cfg);
    } else {
      ApplyAllConsistent(cfg, log[..|log| - 1]);
      ApplyConsistent(cfg, ApplyAll(cfg, log[..|log| - 1]), log[|log| - 1]);
    }
  }

  lemma RefreshedConsistent(cfg: Config, p: Params)
    requires |p.skipRanks| == cfg.ranks && NoneBeyond(cfg, p.skipGroups)
    ensures Consistent(cfg, Refreshed(cfg, p))
  {
  }

  /** Every command keeps the two masks consistent. */
  lemma ApplyConsistent(cfg: Config, p: Params, c: Command)
    requires cfg.Legal() && Consistent(cfg, p)
    ensures Consistent(cfg, Apply(cfg, p, c).0)
  {
    if c.code == MARK_ALL_DQS_GROUPS_AS_VALID {
      RefreshedConsistent(cfg, p.(skipGroups := Mask(0)));
    } else if c.code == MARK_GROUP_AS_SKIP && c.arg < cfg.groups {
      assert NoneBeyond(cfg, Or(p.skipGroups, Shl(Mask(1), c.arg)));
      RefreshedConsistent(cfg, p.(skipGroups := Or(p.skipGroups, Shl(Mask(1), c.arg))));
    } else if c.code == MARK_ALL_RANKS_AS_VALID {
      RefreshedConsistent(cfg, p.(skipRanks := seq(cfg.ranks, _ => false)));
    } else if c.code == MARK_RANK_AS_SKIP && c.arg < cfg.ranks {
      RefreshedConsistent(cfg, p.(skipRanks := p.skipRanks[c.arg := true]));
    } else {
      var q := Apply(cfg, p, c).0;
      assert q.skipGroups == p.skipGroups && q.skipRanks == p.skipRanks && q.skipShadow == p.skipShadow;
    }
  }

  lemma StartConsistent(cfg: Config)
    requires cfg.Legal()
    ensures Consistent(cfg, Start(cfg))
  {
    forall sr | 0 <= sr < cfg.shadowRegs
      ensures !ShadowSkipped(cfg, Start(cfg).skipRanks, sr)
    {
      TimesMono(0, sr, cfg.ranksPerShadow);
      TimesMono(sr + 1, cfg.shadowRegs, cfg.ranksPerShadow);
      assert !Start(cfg).skipRanks[Times(sr, cfg.ranksPerShadow)];
    }
  }

  /** A later command undoes the marks of `mark` when it has code `reset`; this mark has not been undone. */
  ghost predicate Marked(log: seq<Command>, mark: nat, reset: nat, arg: nat)
  {
    exists i :: 0 <= i < |log| && log[i] == Command(mark, arg) && forall j :: i < j < |log| ==> log[j].code != reset
  }

  lemma MarkedStep(log: seq<Command>, mark: nat, reset: nat, arg: nat)
    requires log != [] && mark != reset
    ensures var n := |log| - 1;
      Marked(log, mark, reset, arg) <==> log[n] == Command(mark, arg) || (log[n].code != reset && Marked(log[..n], mark, reset, arg))
  {
    var n := |log| - 1;
    if log[n].code != reset && Marked(log[..n], mark, reset, arg) {
      var i :| 0 <= i < n && log[..n][i] == Command(mark, arg) && forall j :: i < j < n ==> log[..n][j].code != reset;
      assert log[i] == Command(mark, arg) && forall j :: i < j < n ==> log[j] == log[..n][j];
    }
    if Marked(log, mark, reset, arg) && log[n] != Command(mark, arg) {
      var i :| 0 <= i < |log| && log[i] == Command(mark, arg) && forall j :: i < j < |log| ==> log[j].code != reset;
      assert log[..n][i] == Command(mark, arg) && forall j :: i < j < n ==> log[..n][j].code != reset;
    }
  }

  /** The masks in terms of the history: a group or a rank is skipped iff some command marked it and no later
      command marked all as valid. */
  lemma {:induction false} MasksFromHistory(cfg: Config, log: seq<Command>)
    requires cfg.Legal()
    ensures forall g :: 0 <= g < cfg.groups ==>
      (ApplyAll(cfg, log).skipGroups[g] <==> Marked(log, MARK_GROUP_AS_SKIP, MARK_ALL_DQS_GROUPS_AS_VALID, g))
    ensures |ApplyAll(cfg, log).skipRanks| == cfg.ranks
    ensures forall r :: 0 <= r < cfg.ranks ==>
      (ApplyAll(cfg, log).skipRanks[r] <==> Marked(log, MARK_RANK_AS_SKIP, MARK_ALL_RANKS_AS_VALID, r))
  {
    if log != [] {
      var n := |log| - 1;
      MasksFromHistory(cfg, log[..n]);
      forall g | 0 <= g < cfg.groups
        ensures ApplyAll(cfg, log).skipGroups[g] <==> Marked(log, MARK_GROUP_AS_SKIP, MARK_ALL_DQS_GROUPS_AS_VALID, g)
      {
        MarkedStep(log, MARK_GROUP_AS_SKIP, MARK_ALL_DQS_GROUPS_AS_VALID, g);
      }
      forall r | 0 <= r < cfg.ranks
        ensures ApplyAll(cfg, log).skipRanks[r] <==> Marked(log, MARK_RANK_AS_SKIP, MARK_ALL_RANKS_AS_VALID, r)
      {
        MarkedStep(log, MARK_RANK_AS_SKIP, MARK_ALL_RANKS_AS_VALID, r);
      }
    }
  }

  /** A command is refused iff its code is unknown or its argument names no group or rank; then it changes nothing. */
  lemma RefusedIff(cfg: Config, p: Params, c: Command)
    requires |p.skipRanks| == cfg.ranks
    ensures var (q, answer) := Apply(cfg, p, c);
      && answer.Answer() && (answer == IllegalCmd ==> q == p)
      && (answer == IllegalCmd <==>
            || c.code !in {0, 5, 6, 14, 15, 17, 18, 21, 22, 23, 24, 41, 42}
            || (c.code == 15 && c.arg >= cfg.groups) || (c.code == 18 && c.arg >= cfg.ranks))
  {
  }

  /** Some command had this code. */
  ghost predicate Issued(log: seq<Command>, code: nat)
  {
    exists i :: 0 <= i < |log| && log[i].code == code
  }

  /** The last command with this code, if there is one, had an argument other than zero. */
  ghost predicate LastNonZero(log: seq<Command>, code: nat)
  {
    exists i :: 0 <= i < |log| && log[i].code == code && log[i].arg != 0 && forall j :: i < j < |log| ==> log[j].code != code
  }

  lemma IssuedStep(log: seq<Command>, code: nat)
    requires log != []
    ensures Issued(log, code) <==> log[|log| - 1].code == code || Issued(log[..|log| - 1], code)
  {
    var n := |log| - 1;
    if Issued(log[..n], code) {
      var i :| 0 <= i < n && log[..n][i].code == code;
      assert log[i].code == code;
    }
    if Issued(log, code) && log[n].code != code {
      var i :| 0 <= i < |log| && log[i].code == code;
      assert log[..n][i].code == code;
    }
  }

  lemma LastStep(log: seq<Command>, code: nat)
    requires log != []
    ensures var c := log[|log| - 1];
      LastNonZero(log, code) <==> if c.code == code then c.arg != 0 else LastNonZero(log[..|log| - 1], code)
  {
    var n := |log| - 1;
    if log[n].code != code && LastNonZero(log[..n], code) {
      var i :| 0 <= i < n && log[..n][i].code == code && log[..n][i].arg != 0 && forall j :: i < j < n ==> log[..n][j].code != code;
      assert log[i] == log[..n][i] && forall j :: i < j < n ==> log[j] == log[..n][j];
    }
    if LastNonZero(log, code) && log[n].code != code {
      var i :| 0 <= i < |log| && log[i].code == code && log[i].arg != 0 && forall j :: i < j < |log| ==> log[j].code != code;
      assert log[..n][i] == log[i] && forall j :: i < j < n ==> log[..n][j] == log[j];
    }
  }

  /** The flags in terms of the history: three are set for good by their commands, the fourth follows the last one. */
  lemma {:induction false} FlagsFromHistory(cfg: Config, log: seq<Command>)
    ensures var flags := ApplyAll(cfg, log).flags;
      && (MarginReport in flags <==> Issued(log, 21)) && (SweepAllGroups in flags <==> Issued(log, 22))
      && (NoGuaranteedRead in flags <==> Issued(log, 23)) && (NonDestructive in flags <==> LastNonZero(log, 24))
  {
    if log != [] {
      FlagsFromHistory(cfg, log[..|log| - 1]);
      IssuedStep(log, 21);
      IssuedStep(log, 22);
      IssuedStep(log, 23);
      LastStep(log, 24);
    }
  }

  // The protocol: single reads and writes of the shared words by the device and the host, in any interleaving.

  datatype DevicePc = Mark | MarkSecond | Poll | Dispatch(seen: Status) | Execute(code: nat) | Reply(answer: Status) | Halted

  datatype HostPc = Idle | Armed(next: Command) | Posted(next: Command) | Waiting | Answered

  /** The host offers a command, which it uses only when it is about to issue one. */
  datatype Event = DeviceStep | HostStep(offer: Command)

  datatype State = State(
    status: Status, requested: nat, payload: nat,   // the shared words
    device: DevicePc, params: Params, leaving: bool,
    host: HostPc,
    issued: seq<Command>, executed: seq<Command>, acked: nat)

  function Boot(cfg: Config): State
  {
    State(CmdExe, NOP, 0, Mark, Start(cfg), false, Idle, [], [], 0)
  }

  function DeviceNext(cfg: Config, s: State): State
  {
    match s.device
    case Mark =>
      if cfg.commandFirst then s.(requested := WAIT_CMD, device := MarkSecond) else s.(status := CmdReady, device := MarkSecond)
    case MarkSecond =>
      if cfg.commandFirst then s.(status := CmdReady, device := Poll) else s.(requested := WAIT_CMD, device := Poll)
    case Poll => if s.leaving then s.(device := Halted) else s.(device := Dispatch(s.status))
    case Dispatch(seen) =>
      if seen.Answer() then s.(device := if s.requested == ACK then Mark else Poll)
      else if seen == CmdReady && s.requested != WAIT_CMD then s.(device := Execute(s.requested))
      else s.(device := Poll)
    case Execute(code) =>
      var c := Command(code, s.payload);
      s.(params := Apply(cfg, s.params, c).0, device := Reply(Apply(cfg, s.params, c).1),
         executed := s.executed + [c], leaving := code == SET_UPDATE_PARAMETERS)
    case Reply(answer) => s.(status := answer, device := Poll)
    case Halted => s
  }

  /** The host issues only when it has seen the interface ready, argument first, and acknowledges each answer once. */
  function HostNext(s: State, offer: Command): State
  {
    match s.host
    case Idle => if s.status == CmdReady then s.(host := Armed(offer)) else s
    case Armed(c) => s.(payload := c.arg, host := Posted(c))
    case Posted(c) => s.(requested := c.code, host := Waiting, issued := s.issued + [c])
    case Waiting => if s.status.Answer() then s.(host := Answered) else s
    case Answered => s.(requested := ACK, host := Idle, acked := s.acked + 1)
  }

  function Next(cfg: Config, s: State, e: Event): State
  {
    match e
    case DeviceStep => DeviceNext(cfg, s)
    case HostStep(offer) => HostNext(s, offer)
  }

  function Run(cfg: Config, s: State, events: seq<Event>): State
    decreases |events|
  {
    if events == [] then s else Run(cfg, Next(cfg, s, events[0]), events[1..])
  }

  /** The host only ever offers commands that the protocol does not use itself. */
  predicate ProperOffers(events: seq<Event>)
  {
    forall k :: 0 <= k < |events| && events[k].HostStep? ==> events[k].offer.Proper()
  }

  /** The device as it runs in place. */
  class Device {
    const cfg: Config
    var params: Params
    var status: Status
    var requested: nat
    var payload: nat
    var leaving: bool    // rdimm_control_word_updated

    constructor (cfg: Config)
      ensures this.cfg == cfg && Shows(Boot(cfg))
    {
      this.cfg, params, status, requested, payload, leaving := cfg, Start(cfg), CmdExe, NOP, 0, false;
    }

    /** The device and the shared words are as in state s. */
    ghost predicate Shows(s: State)
      reads this
    {
      && params == s.params && status == s.status && requested == s.requested && payload == s.payload
      && leaving == s.leaving
    }

    /** The ranks of one shadow register, up to the first one that is not skipped. */
    method SkipsShadow(rank: int) returns (skip: bool)
      requires 0 <= rank && rank + cfg.ranksPerShadow <= |params.skipRanks|
      ensures skip == AllSkipped(params.skipRanks, rank, rank + cfg.ranksPerShadow)
    {
      skip := true;
      for i := 0 to cfg.ranksPerShadow
        invariant skip && AllSkipped(params.skipRanks, rank, rank + i)
      {
        if !params.skipRanks[rank + i] {
          return false;
        }
      }
    }

    /** `tclrpt_update_rank_group_mask`. */
    method UpdateShadow()
      requires cfg.Legal() && |params.skipRanks| == cfg.ranks
      modifies this`params
      ensures params == Refreshed(cfg, old(params))
    {
      var shadow: seq<bool> := [];
      var rank := 0;
      for sr := 0 to cfg.shadowRegs
        invariant params == old(params) && rank == Times(sr, cfg.ranksPerShadow)
        invariant shadow == Refreshed(cfg, params).skipShadow[..sr]
      {
        TimesMono(0, sr, cfg.ranksPerShadow);
        TimesMono(sr + 1, cfg.shadowRegs, cfg.ranksPerShadow);
        var skip := SkipsShadow(rank);
        shadow := shadow + [skip];
        rank := rank + cfg.ranksPerShadow;
      }
      params := params.(skipShadow := shadow);
    }

    /** Execute a command: change the configuration and answer. */
    method Handle(c: Command)
      requires cfg.Legal() && |params.skipRanks| == cfg.ranks
      modifies this`params, this`status
      ensures params == Apply(cfg, old(params), c).0 && status == Apply(cfg, old(params), c).1
    {
      status := ResponseReady;
      if c.code == MARK_ALL_DQS_GROUPS_AS_VALID {
        params := params.(skipGroups := Mask(0));
        UpdateShadow();
      } else if c.code == MARK_GROUP_AS_SKIP && c.arg < cfg.groups {
        params := params.(skipGroups := Or(params.skipGroups, Shl(Mask(1), c.arg)));
        UpdateShadow();
      } else if c.code == MARK_ALL_RANKS_AS_VALID {
        params := params.(skipRanks := seq(cfg.ranks, _ => false));
        UpdateShadow();
      } else if c.code == MARK_RANK_AS_SKIP && c.arg < cfg.ranks {
        params := params.(skipRanks := params.skipRanks[c.arg := true]);
        UpdateShadow();
      } else if c.code == ENABLE_MARGIN_REPORT {
        params := params.(flags := params.flags + {MarginReport});
      } else if c.code == ENABLE_SWEEP_ALL_GROUPS {
        params := params.(flags := params.flags + {SweepAllGroups});
      } else if c.code == DISABLE_GUARANTEED_READ {
        params := params.(flags := params.flags + {NoGuaranteedRead});
      } else if c.code == SET_NON_DESTRUCTIVE_CALIBRATION {
        params := params.(flags := if c.arg != 0 then params.flags + {NonDestructive} else params.flags - {NonDestructive});
      } else if c.code !in {NOP, RUN_MEM_CALIBRATE, RUN_NON_DES_MEM_CALIBRATE, RUN_EYE_DIAGRAM_PATTERN, SET_UPDATE_PARAMETERS} {
        status := IllegalCmd;
      }
    }

    /** Mark the interface as ready: command word first, then status. */
    method MarkReady()
      modifies this`status, this`requested
      ensures status == CmdReady && requested == WAIT_CMD
    {
      requested := WAIT_CMD;
      status := CmdReady;
    }

    /** One pass of the endless loop, undisturbed: the steps the protocol gives the device between two polls.
        False means that the loop is left. */
    method LoopPass(ghost s: State) returns (again: bool)
      requires cfg.Legal() && cfg.commandFirst && |params.skipRanks| == cfg.ranks
      requires Shows(s) && s.device == Poll
      modifies this
      ensures Shows(NextPoll(cfg, s)) && (again <==> NextPoll(cfg, s).device == Poll)
    {
      again := true;
      if leaving {
        return false;
      }
      if status == ResponseReady || status == IllegalCmd {
        if requested == ACK {
          MarkReady();
        }
      } else if status == CmdReady && requested != WAIT_CMD {
        leaving := requested == SET_UPDATE_PARAMETERS;
        Handle(Command(requested, payload));
      }
    }
  }

  /** The device's steps from one poll to the next, or to the end. */
  function NextPoll(cfg: Config, s: State): State
  {
    var s1 := DeviceNext(cfg, s);
    if s1.device == Halted then s1 else
    var s2 := DeviceNext(cfg, s1);
    if s2.device == Poll then s2 else DeviceNext(cfg, DeviceNext(cfg, s2))
  }

  /** The phase the two parties are in together. */
  ghost predicate Phase(s: State)
  {
    match s.host
    case Idle =>
      && s.executed == s.issued && s.acked == |s.issued|
      && (|| (s.device == Mark && s.status != CmdReady)
          || (s.device == MarkSecond && s.status != CmdReady && s.requested == WAIT_CMD)
          || Resting(s)
          || (s.status.Answer() && s.requested == ACK && s.device in {Poll, Dispatch(s.status), Halted}))
    case Armed(c) => c.Proper() && s.executed == s.issued && s.acked == |s.issued| && Resting(s)
    case Posted(c) => c.Proper() && s.executed == s.issued && s.acked == |s.issued| && Resting(s) && s.payload == c.arg
    case Waiting =>
      && s.issued != [] && s.acked == |s.issued| - 1
      && (|| Pending(s)
          || (s.device.Reply? && s.device.answer.Answer() && s.status == CmdReady && s.executed == s.issued && Held(s))
          || Replied(s))
    case Answered => s.issued != [] && s.acked == |s.issued| - 1 && Replied(s)
  }

  /** Ready for a command, none there. */
  ghost predicate Resting(s: State)
  {
    s.status == CmdReady && s.requested == WAIT_CMD && !s.leaving && s.device in {Poll, Dispatch(CmdReady)}
  }

  ghost predicate Held(s: State)
  {
    s.issued != [] && s.requested == s.issued[|s.issued| - 1].code && s.issued[|s.issued| - 1].Proper()
  }

  /** A command has been issued and not executed. */
  ghost predicate Pending(s: State)
  {
    && Held(s) && s.status == CmdReady && !s.leaving && s.payload == s.issued[|s.issued| - 1].arg
    && s.executed == s.issued[..|s.issued| - 1]
    && s.device in {Poll, Dispatch(CmdReady), Execute(s.requested)}
  }

  ghost predicate Replied(s: State)
  {
    Held(s) && s.status.Answer() && s.executed == s.issued && s.device in {Poll, Dispatch(s.status), Halted}
  }

  ghost predicate Inv(s: State)
  {
    Phase(s) && (s.leaving ==> s.device.Reply? || s.device == Poll || s.device == Halted)
  }

  lemma ExecuteKeeps(cfg: Config, s: State)
    requires Inv(s) && s.device.Execute?
    ensures Inv(DeviceNext(cfg, s))
  {
    var n := |s.issued| - 1;
    assert Pending(s);
    assert s.issued == s.issued[..n] + [s.issued[n]];
  }

  lemma DeviceKeeps(cfg: Config, s: State)
    requires cfg.commandFirst && Inv(s)
    ensures Inv(DeviceNext(cfg, s))
  {
    if s.device.Execute? {
      ExecuteKeeps(cfg, s);
    }
  }

  lemma HostKeeps(s: State, offer: Command)
    requires Inv(s) && offer.Proper()
    ensures Inv(HostNext(s, offer))
  {
    match s.host
    case Idle =>
    case Armed(c) =>
    case Posted(c) =>
      var t := HostNext(s, offer);
      assert t.issued[|t.issued| - 1] == c && t.issued[..|t.issued| - 1] == s.issued;
    case Waiting =>
    case Answered =>
  }

  lemma NextKeeps(cfg: Config, s: State, e: Event)
    requires cfg.commandFirst && Inv(s) && (e.HostStep? ==> e.offer.Proper())
    ensures Inv(Next(cfg, s, e))
  {
    match e
    case DeviceStep => DeviceKeeps(cfg, s);
    case HostStep(offer) => HostKeeps(s, offer);
  }

  lemma {:induction false} RunKeeps(cfg: Config, s: State, events: seq<Event>)
    requires cfg.commandFirst && Inv(s) && ProperOffers(events)
    ensures Inv(Run(cfg, s, events))
    decreases |events|
  {
    if events != [] {
      NextKeeps(cfg, s, events[0]);
      RunKeeps(cfg, Next(cfg, s, events[0]), events[1..]);
    }
  }

  /** In every reachable state the commands executed are exactly the commands issued, each once and in order,
      but for at most the last one; none is executed again before it is acknowledged. */
  lemma ExactlyOnce(cfg: Config, events: seq<Event>)
    requires cfg.commandFirst && ProperOffers(events)
    ensures var s := Run(cfg, Boot(cfg), events);
      s.executed <= s.issued && s.acked <= |s.executed| && |s.issued| <= s.acked + 1
  {
    RunKeeps(cfg, Boot(cfg), events);
  }

  lemma ConfiguredStep(cfg: Config, s: State, e: Event)
    requires s.params == ApplyAll(cfg, s.executed)
    ensures Next(cfg, s, e).params == ApplyAll(cfg, Next(cfg, s, e).executed)
  {
    if e.DeviceStep? && s.device.Execute? {
      var c := Command(s.device.code, s.payload);
      assert (s.executed + [c])[..|s.executed|] == s.executed;
    }
  }

  lemma {:induction false} ConfiguredRun(cfg: Config, s: State, events: seq<Event>)
    requires s.params == ApplyAll(cfg, s.executed)
    ensures Run(cfg, s, events).params == ApplyAll(cfg, Run(cfg, s, events).executed)
    decreases |events|
  {
    if events != [] {
      ConfiguredStep(cfg, s, events[0]);
      ConfiguredRun(cfg, Next(cfg, s, events[0]), events[1..]);
    }
  }

  /** The configuration is what the issued commands say, up to the last one, and its masks are consistent. */
  lemma ConfiguredByIssued(cfg: Config, events: seq<Event>)
    requires cfg.Legal() && cfg.commandFirst && ProperOffers(events)
    ensures var s := Run(cfg, Boot(cfg), events);
      && Consistent(cfg, s.params)
      && (s.params == ApplyAll(cfg, s.issued) || (s.issued != [] && s.params == ApplyAll(cfg, s.issued[..|s.issued| - 1])))
  {
    var s := Run(cfg, Boot(cfg), events);
    RunKeeps(cfg, Boot(cfg), events);
    ConfiguredRun(cfg, Boot(cfg), events);
    ApplyAllConsistent(cfg, s.executed);
  }

  /** The answer to the last command executed. */
  ghost function LastAnswer(cfg: Config, s: State): Status
    requires s.executed != []
  {
    var n := |s.executed| - 1;
    Apply(cfg, ApplyAll(cfg, s.executed[..n]), s.executed[n]).1
  }

  /** What the device shows is the answer to the last command executed, and it leaves its loop iff that was the command
      to update the parameters. */
  ghost predicate Truthful(cfg: Config, s: State)
  {
    && s.params == ApplyAll(cfg, s.executed)
    && (s.device.Reply? ==> s.executed != [] && s.device.answer == LastAnswer(cfg, s))
    && (s.status.Answer() ==> s.executed != [] && s.status == LastAnswer(cfg, s))
    && (s.leaving <==> s.executed != [] && s.executed[|s.executed| - 1].code == 41)
    && (s.device == Halted ==> s.leaving)
  }

  lemma ExecuteTruthful(cfg: Config, s: State)
    requires s.device.Execute? && s.status == CmdReady && Truthful(cfg, s)
    ensures Truthful(cfg, DeviceNext(cfg, s))
  {
    var c, t := Command(s.device.code, s.payload), DeviceNext(cfg, s);
    assert t.executed[..|t.executed| - 1] == s.executed && t.executed[|t.executed| - 1] == c;
    assert t.device == Reply(LastAnswer(cfg, t));
  }

  lemma OtherTruthful(cfg: Config, s: State, e: Event)
    requires Truthful(cfg, s) && (e.DeviceStep? ==> !s.device.Execute?)
    ensures Truthful(cfg, Next(cfg, s, e))
  {
    var t := Next(cfg, s, e);
    assert t.executed == s.executed && t.params == s.params;
    if s.executed != [] {
      assert LastAnswer(cfg, t) == LastAnswer(cfg, s);
    }
  }

  lemma TruthfulStep(cfg: Config, s: State, e: Event)
    requires cfg.commandFirst && Inv(s) && (!cfg.commandFirst || Truthful(cfg, s))
    ensures !cfg.commandFirst || Truthful(cfg, Next(cfg, s, e))
  {
    if e.DeviceStep? && s.device.Execute? {
      assert Pending(s);
      ExecuteTruthful(cfg, s);
    } else {
      OtherTruthful(cfg, s, e);
    }
  }

  lemma {:induction false} TruthfulRun(cfg: Config, s: State, events: seq<Event>)
    requires cfg.commandFirst && Inv(s) && Truthful(cfg, s) && ProperOffers(events)
    ensures Truthful(cfg, Run(cfg, s, events))
    decreases |events|
  {
    if events != [] {
      TruthfulStep(cfg, s, events[0]);
      NextKeeps(cfg, s, events[0]);
      TruthfulRun(cfg, Next(cfg, s, events[0]), events[1..]);
    }
  }

  /** In every reachable state a host that has been answered sees the answer to the command it issued last, and the
      device has left its loop only after the command to update the parameters. */
  lemma AnsweredTruthfully(cfg: Config, events: seq<Event>)
    requires cfg.commandFirst && ProperOffers(events)
    ensures var s := Run(cfg, Boot(cfg), events);
      && (s.host == Answered ==>
            s.issued != [] && s.executed == s.issued &&
            s.status == Apply(cfg, ApplyAll(cfg, s.issued[..|s.issued| - 1]), s.issued[|s.issued| - 1]).1)
      && (s.device == Halted ==> s.executed != [] && s.executed[|s.executed| - 1].code == 41)
  {
    RunKeeps(cfg, Boot(cfg), events);
    TruthfulRun(cfg, Boot(cfg), events);
  }

  function DeviceSteps(events: seq<Event>): nat
  {
    if events == [] then 0 else (if events[0].DeviceStep? then 1 else 0) + DeviceSteps(events[1..])
  }

  /** Device steps until a pending command has been executed. */
  ghost function Distance(s: State): nat
  {
    match s.device
    case Poll => 3
    case Dispatch(_) => 2
    case _ => 1
  }

  lemma {:induction false} RunGrows(cfg: Config, s: State, events: seq<Event>)
    ensures s.executed <= Run(cfg, s, events).executed && s.issued <= Run(cfg, s, events).issued
    decreases |events|
  {
    if events != [] {
      RunGrows(cfg, Next(cfg, s, events[0]), events[1..]);
    }
  }

  /** A pending command gets nearer to its execution with every device step, and no host step disturbs it. */
  lemma PendingStep(cfg: Config, s: State, e: Event)
    requires Inv(s) && Pending(s) && s.host == Waiting
    ensures Next(cfg, s, e).issued == s.issued
    ensures e.HostStep? ==> Next(cfg, s, e) == s
    ensures e.DeviceStep? && Distance(s) == 1 ==> Next(cfg, s, e).executed == s.issued
    ensures e.DeviceStep? && Distance(s) > 1 ==>
      Pending(Next(cfg, s, e)) && Next(cfg, s, e).host == Waiting && Distance(Next(cfg, s, e)) == Distance(s) - 1
  {
    var n := |s.issued| - 1;
    assert s.issued == s.issued[..n] + [s.issued[n]];
  }

  /** Nothing that has been issued is lost: the device has executed it after three more steps of its own,
      whatever the host does meanwhile. */
  lemma {:induction false} Progress(cfg: Config, s: State, events: seq<Event>)
    requires cfg.commandFirst && Inv(s) && ProperOffers(events) && DeviceSteps(events) >= Distance(s)
    ensures s.issued <= Run(cfg, s, events).executed
    decreases |events|
  {
    if s.executed == s.issued {
      RunGrows(cfg, s, events);
    } else {
      assert Pending(s);
      var t := Next(cfg, s, events[0]);
      PendingStep(cfg, s, events[0]);
      NextKeeps(cfg, s, events[0]);
      if t.executed == t.issued {
        RunGrows(cfg, t, events[1..]);
      } else {
        Progress(cfg, t, events[1..]);
      }
    }
  }

  /** From boot: what was issued by some moment has been executed three device steps later. */
  lemma NothingIsLost(cfg: Config, before: seq<Event>, after: seq<Event>)
    requires cfg.commandFirst && ProperOffers(before) && ProperOffers(after) && DeviceSteps(after) >= 3
    ensures Run(cfg, Boot(cfg), before).issued <= Run(cfg, Run(cfg, Boot(cfg), before), after).executed
  {
    RunKeeps(cfg, Boot(cfg), before);
    Progress(cfg, Run(cfg, Boot(cfg), before), after);
  }

  // Why the command word must be reset before the status, and why the host must keep off the two reserved codes.

  /** Status first: a host that sees the interface ready at once has its command overwritten. */
  function OverwriteRun(c: Command): seq<Event>
  {
    [DeviceStep, HostStep(c), HostStep(c), HostStep(c), DeviceStep]
  }

  /** The command is lost and its host waits for ever, whatever steps follow. */
  lemma StatusFirstLosesCommand(cfg: Config, c: Command, after: seq<Event>)
    requires !cfg.commandFirst && c.Proper()
    ensures ProperOffers(OverwriteRun(c))
    ensures var s := Run(cfg, Run(cfg, Boot(cfg), OverwriteRun(c)), after);
      s.issued == [c] && s.executed == [] && s.host == Waiting
  {
    var s0 := Boot(cfg);
    var s1 := s0.(status := CmdReady, device := MarkSecond);
    var s2 := s1.(host := Armed(c));
    var s3 := s2.(payload := c.arg, host := Posted(c));
    var s4 := s3.(requested := c.code, host := Waiting, issued := [c]);
    var s5 := s4.(requested := WAIT_CMD, device := Poll);
    RunCons(cfg, s4, DeviceStep, []);
    RunCons(cfg, s3, HostStep(c), [DeviceStep]);
    RunCons(cfg, s2, HostStep(c), [HostStep(c), DeviceStep]);
    RunCons(cfg, s1, HostStep(c), [HostStep(c), HostStep(c), DeviceStep]);
    RunCons(cfg, s0, DeviceStep, [HostStep(c), HostStep(c), HostStep(c), DeviceStep]);
    assert Run(cfg, s0, OverwriteRun(c)) == s5;
    Starved(cfg, s5, after);
  }

  lemma RunCons(cfg: Config, s: State, e: Event, rest: seq<Event>)
    ensures Run(cfg, s, [e] + rest) == Run(cfg, Next(cfg, s, e), rest)
  {
    assert ([e] + rest)[1..] == rest;
  }

  /** With the interface ready, no command in the word and a host that waits, the device polls for ever: no
      further step of either party changes anything else. */
  lemma {:induction false} Starved(cfg: Config, s: State, events: seq<Event>)
    requires Resting(s) && s.host == Waiting
    ensures var t := Run(cfg, s, events);
      Resting(t) && t == s.(device := t.device)
    decreases |events|
  {
    if events != [] {
      var next := Next(cfg, s, events[0]);
      assert Resting(next) && next == s.(device := next.device);
      Starved(cfg, next, events[1..]);
    }
  }

  /** The command word of a host that issues the wait code is no command at all: it is never executed and its
      host waits for ever, whatever steps follow. */
  lemma WaitCodeIsLost(cfg: Config, s: State, arg: nat, offer: Command, after: seq<Event>)
    requires Resting(s) && s.host == Posted(Command(WAIT_CMD, arg))
    ensures var t := Run(cfg, Next(cfg, s, HostStep(offer)), after);
      t.issued == s.issued + [Command(WAIT_CMD, arg)] && t.executed == s.executed && t.host == Waiting
  {
    Starved(cfg, Next(cfg, s, HostStep(offer)), after);
  }

  /** The acknowledge code, issued as a command, answers itself: the device is ready again although the host has
      neither seen an answer nor acknowledged one. */
  lemma AckCodeAnswersItself(cfg: Config, s: State, arg: nat)
    requires cfg.commandFirst && Resting(s) && s.device == Poll && s.host == Posted(Command(ACK, arg))
    ensures var issued := HostNext(s, Command(NOP, 0));
      var t := Run(cfg, issued, seq(8, _ => DeviceStep));
      Resting(t) && t.host == Waiting && t.acked == s.acked
  {
    var s0 := HostNext(s, Command(NOP, 0));
    var s1 := DeviceNext(cfg, s0);
    var s2 := DeviceNext(cfg, s1);
    var s3 := DeviceNext(cfg, s2);
    var s4 := DeviceNext(cfg, s3);
    var s5 := DeviceNext(cfg, s4);
    var s6 := DeviceNext(cfg, s5);
    var s7 := DeviceNext(cfg, s6);
    assert s5 == s0.(device := Dispatch(IllegalCmd), status := IllegalCmd, executed := s.executed + [Command(ACK, s.payload)]);
    DeviceRun(cfg, s0, 8);
    DeviceRun(cfg, s1, 7);
    DeviceRun(cfg, s2, 6);
    DeviceRun(cfg, s3, 5);
    DeviceRun(cfg, s4, 4);
    DeviceRun(cfg, s5, 3);
    DeviceRun(cfg, s6, 2);
    DeviceRun(cfg, s7, 1);
  }

  lemma DeviceRun(cfg: Config, s: State, n: nat)
    requires n > 0
    ensures Run(cfg, s, seq(n, _ => DeviceStep)) == Run(cfg, DeviceNext(cfg, s), seq(n - 1, _ => DeviceStep))
  {
    assert seq(n, _ => DeviceStep)[1..] == seq(n - 1, _ => DeviceStep);
  }
}
