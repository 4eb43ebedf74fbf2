/** The controller bring-up replay: a long run of guarded register steps whose order depends on option flags. */
module PhaseF {
  import opened Mmio

  // --------------------------------------------------------------- vocabulary

  datatype Block = Rc | PhyShared | PhyCommon | PhyPacked | PhyIp | Axi | Sub5 | Sub6 | Power | NoBlock

  /** What a step does, as far as the order of steps matters. */
  datatype Deed =
    | Clk0Request | Clk0Ack | Clk1Request | Clk1Ack | ResetClear | Marker
    | ClockModeOn | RcReady | Probe | Tunables | Naked | Poke | Peek | Verify

  /** How a step can end the replay.
      MustSucceed: a raise, a dead host or a counted exception.
      MustConverge: those, and not reaching the awaited value (or a failure code of the on-CPU applier).
      MustAnswer: a raise only.   MustLive: a dead host only.   MustAnswerAndLive: either.
      MayFail: nothing it does.   Refused: always, without touching the device. */
  datatype Rule = MustSucceed | MustConverge | MustAnswer | MustLive | MustAnswerAndLive | MayFail | Refused

  datatype Action = Action(deed: Deed, block: Block, rule: Rule)

  /** What came of a step: `escaped` is an exception out of the guard itself, `count` the exception
      counter read afterwards. */
  datatype Answer = Answer(escaped: bool, raised: bool, converged: bool, alive: bool, count: int)

  datatype Event = Event(action: Action, answer: Answer, passed: bool)

  /** The device may answer as it likes, depending on everything done so far. */
  type Oracle = (seq<Event>, Action) -> Answer

  datatype State = State(trail: seq<Event>, exc: int, stopped: bool)

  // -------------------------------------------------------------- one step

  /** The running exception count after the step, and whether the replay goes on. */
  function Outcome(rule: Rule, a: Answer, exc: int): (int, bool) {
    if a.escaped then (exc, false)
    else match rule
      case MustSucceed => if a.raised || !a.alive then (exc, false) else (a.count, a.count == exc)
      case MustConverge => if a.raised || !a.alive then (exc, false) else (a.count, a.count == exc && a.converged)
      case MustAnswer => (exc, !a.raised)
      case MustLive => if !a.alive then (exc, false) else (a.count, true)
      case MustAnswerAndLive => if a.raised || !a.alive then (exc, false) else (a.count, true)
      case MayFail => (exc, true)
      case Refused => (exc, false)
  }

  function Perform(oracle: Oracle, act: Action, st: State): State {
    if st.stopped then st
    else
      var answer := oracle(st.trail, act);
      var (exc, passed) := Outcome(act.rule, answer, st.exc);
      State(st.trail + [Event(act, answer, passed)], exc, !passed)
  }

  function Exec(oracle: Oracle, acts: seq<Action>, st: State): State {
    if acts == [] then st else Perform(oracle, acts[|acts| - 1], Exec(oracle, acts[..|acts| - 1], st))
  }

  // --------------------------------------------------------------- the options

  datatype Label =
    | Entry | PostPmgr | PostPhyTunables | PostNakedTest | Post58a | Post58b | Post58c | Post55
    | PostClk0 | PostClk1 | Post6i | PostEarlyClockMode | PostMarker | Post65 | PostStubPll | PostStubAuspma | PostApplyLocal
    | NoLabel

  /** A block named on the command line: whether such a base exists, whether its address is zero, and, for sub-blocks,
      whether they answered a first touch. */
  datatype Target = Target(block: Block, exists_: bool, zero: bool, touched: bool)

  predicate Usable(t: Target) {
    t.block == Sub5 || t.block == Sub6 ==> t.touched
  }

  /** Where one of the two extra lists goes: absent or empty property, no block large enough, or the inferred block. */
  datatype Inferred = Absent | NoBlockFits | Into(block: Block)

  datatype Applier = OnCpu | CApplicator | Filtered

  /** The selected entries of one phy_ip property: for each, whether its size is known. */
  datatype Prop = Missing | Entries(sizesKnown: seq<bool>)

  datatype Config = Config(
    diag: bool, reachableScan: bool, diagAt: Label,
    hasAxi2af: bool, hasCommon: bool, hasPhy: bool,
    nakedTest: bool, axi2afNaked: bool, axi2afListed: bool,
    clkgenNakedTo: Option<Target>, set5To: Option<Target>, pllcoreNakedTo: Option<Target>,
    extra: bool, keepPll: bool, keepClk: bool, pllInto: Inferred, clkInto: Inferred,
    phycmnFirst: bool, phyifRun: bool, phy4Early: bool, phycmnEarly: bool, sharedPost: bool, pmgrScan: bool,
    applier: Applier, pll: Prop, auspma: Prop, activePorts: nat)

  // ---------------------------------------------------------- the steps, in order

  function Diag(c: Config, at: Label): seq<Action> {
    if !c.diag then []
    else
      [Action(Probe, PhyCommon, MayFail)]
      + (if c.reachableScan then [Action(Probe, NoBlock, MayFail)] else [])
      + (if at == c.diagAt then [Action(Probe, PhyIp, MayFail)] else [])
  }

  function Tunable(present: bool, block: Block): seq<Action> {
    if present then [Action(Tunables, block, MustSucceed)] else []
  }

  const CLOCK_MODE := Action(ClockModeOn, PhyCommon, MustSucceed)

  function Opening(c: Config): seq<Action> {
    Diag(c, Entry) + [Action(Poke, Power, MustSucceed)] + Diag(c, PostPmgr)
    + Tunable(c.hasAxi2af, Axi) + [Action(Poke, Rc, MustSucceed)]
    + Tunable(c.hasCommon, Rc) + Tunable(c.hasPhy, PhyPacked) + Diag(c, PostPhyTunables)
  }

  function NakedTests(c: Config): seq<Action> {
    (if c.nakedTest then [Action(Naked, NoBlock, MayFail)] + Diag(c, PostNakedTest) else [])
    + (if c.axi2afNaked
       then (if c.axi2afListed then [Action(Naked, Axi, MayFail)] else []) + Diag(c, Post58a) else [])
  }

  /** The naked applier makes no access without a base, at a zero base, or without a list. */
  predicate Applies(t: Target, list: Inferred) {
    Usable(t) && t.exists_ && !t.zero && !list.Absent?
  }

  function NakedTo(c: Config, t: Option<Target>, list: Inferred, at: Label): seq<Action> {
    if t.None? then []
    else (if Applies(t.value, list) then [Action(Naked, t.value.block, MayFail)] else []) + Diag(c, at)
  }

  function Set5(c: Config): seq<Action> {
    if c.set5To.None? then []
    else
      var t := c.set5To.value;
      (if !t.exists_ || !Usable(t) then []
       else [Action(Peek, t.block, MustAnswer), Action(Poke, t.block, MustSucceed), Action(Peek, t.block, MustAnswer)])
      + Diag(c, Post58b)
  }

  function ExtraProp(keep: bool, into: Inferred): seq<Action> {
    if !keep then []
    else match into
      case Absent => []
      case NoBlockFits => [Action(Tunables, NoBlock, Refused)]
      case Into(b) => [Action(Tunables, b, MustSucceed)]
  }

  function Extra(c: Config): seq<Action> {
    if !c.extra then []
    else ExtraProp(c.keepPll, c.pllInto) + ExtraProp(c.keepClk, c.clkInto) + Diag(c, Post55)
  }

  function FirstClockMode(c: Config): seq<Action> {
    if c.phycmnFirst then [CLOCK_MODE] else []
  }

  function Handshake(c: Config): seq<Action> {
    [Action(Clk0Request, PhyShared, MustSucceed), Action(Clk0Ack, PhyShared, MustConverge)] + Diag(c, PostClk0)
    + [Action(Clk1Request, PhyShared, MustSucceed), Action(Clk1Ack, PhyShared, MustConverge)] + Diag(c, PostClk1)
  }

  function Release(): seq<Action> {
    [Action(ResetClear, PhyShared, MustSucceed), Action(Peek, PhyShared, MayFail),
     Action(Marker, PhyShared, MustSucceed), Action(Peek, PhyShared, MayFail)]
  }

  function EarlyPokes(c: Config): seq<Action> {
    (if c.phyifRun
     then [Action(Peek, Rc, MayFail), Action(Poke, Rc, MustSucceed), Action(Peek, Rc, MayFail)] else [])
    + (if c.phy4Early then [Action(Poke, PhyShared, MustSucceed)] + Diag(c, Post6i) else [])
  }

  function EarlyClockMode(c: Config): seq<Action> {
    if c.phycmnEarly && !c.phycmnFirst then [CLOCK_MODE] else []
  }

  function AfterClockMode(c: Config): seq<Action> {
    (if c.phycmnEarly then Diag(c, PostEarlyClockMode) else []) + Diag(c, PostMarker)
  }

  function SharedPost(c: Config): seq<Action> {
    (if !c.sharedPost then []
     else [Action(Peek, PhyShared, MustAnswer), Action(Peek, PhyShared, MustAnswer),
           Action(Poke, PhyShared, MustSucceed),
           Action(Peek, PhyShared, MustAnswer), Action(Peek, PhyShared, MustAnswer)] + Diag(c, Post65))
    + (if c.pmgrScan then [Action(Peek, Power, MayFail)] else [])
  }

  function EntryAction(known: bool): Action {
    if known then Action(Tunables, PhyIp, MustSucceed) else Action(Tunables, NoBlock, Refused)
  }

  function EntryActions(sizesKnown: seq<bool>): seq<Action> {
    seq(|sizesKnown|, k requires 0 <= k < |sizesKnown| => EntryAction(sizesKnown[k]))
  }

  function Verifies(n: nat, rule: Rule): seq<Action> {
    seq(n, _ => Action(Verify, PhyIp, rule))
  }

  /** Entry by entry, then one read per active slice. */
  function FilteredSteps(p: Prop, ports: nat): seq<Action> {
    if p.Missing? then [] else EntryActions(p.sizesKnown) + Verifies(ports, MustLive)
  }

  /** One call for the whole table, then three reads. */
  function OnCpuSteps(c: Config, p: Prop, at: Label): seq<Action> {
    if p.Missing? then []
    else if false in p.sizesKnown then [Action(Tunables, NoBlock, Refused)]
    else [Action(Tunables, PhyIp, MustConverge)] + Verifies(3, MustAnswerAndLive) + Diag(c, at)
  }

  function ApplyPhyIp(c: Config): seq<Action> {
    match c.applier
    case OnCpu => OnCpuSteps(c, c.pll, PostStubPll) + OnCpuSteps(c, c.auspma, PostStubAuspma)
    case CApplicator =>
      [Action(Tunables, PhyIp, MustSucceed)] + Diag(c, PostApplyLocal) + FilteredSteps(c.auspma, c.activePorts)
    case Filtered => FilteredSteps(c.pll, c.activePorts) + FilteredSteps(c.auspma, c.activePorts)
  }

  function LastClockMode(c: Config): seq<Action> {
    if c.phycmnFirst || c.phycmnEarly then [] else [CLOCK_MODE]
  }

  function RcInit(): seq<Action> {
    [Action(Poke, Rc, MustSucceed), Action(Poke, Rc, MustSucceed), Action(RcReady, Rc, MustConverge)]
  }

  // The script as nested remainders, one per part.
  function Script(c: Config): seq<Action> { Opening(c) + From1(c) }
  function From1(c: Config): seq<Action> { NakedTests(c) + From2(c) }
  function From2(c: Config): seq<Action> { NakedTo(c, c.clkgenNakedTo, c.clkInto, Post58b) + From3(c) }
  function From3(c: Config): seq<Action> { Set5(c) + From4(c) }
  function From4(c: Config): seq<Action> { NakedTo(c, c.pllcoreNakedTo, c.pllInto, Post58c) + From5(c) }
  function From5(c: Config): seq<Action> { Extra(c) + From6(c) }
  function From6(c: Config): seq<Action> { FirstClockMode(c) + From7(c) }
  function From7(c: Config): seq<Action> { Handshake(c) + From8(c) }
  function From8(c: Config): seq<Action> { Release() + From9(c) }
  function From9(c: Config): seq<Action> { EarlyPokes(c) + From10(c) }
  function From10(c: Config): seq<Action> { EarlyClockMode(c) + From11(c) }
  function From11(c: Config): seq<Action> { AfterClockMode(c) + From12(c) }
  function From12(c: Config): seq<Action> { SharedPost(c) + From13(c) }
  function From13(c: Config): seq<Action> { ApplyPhyIp(c) + From14(c) }
  function From14(c: Config): seq<Action> { LastClockMode(c) + RcInit() }

  // --------------------------------------------------------------- the replay

  lemma {:induction false} ExecConcat(oracle: Oracle, a: seq<Action>, b: seq<Action>, st: State)
    ensures Exec(oracle, a + b, st) == Exec(oracle, b, Exec(oracle, a, st))
  {
    hide Perform;
    if b == [] {
      assert a + b == a;
    } else {
      ExecConcat(oracle, a, b[..|b| - 1], st);
      assert (a + b)[..|a + b| - 1] == a + b[..|b| - 1];
    }
  }

  lemma {:induction false} ExecStopped(oracle: Oracle, acts: seq<Action>, st: State)
    requires st.stopped
    ensures Exec(oracle, acts, st) == st
  {
    if acts != [] { ExecStopped(oracle, acts[..|acts| - 1], st); }
  }

  lemma ExecOne(oracle: Oracle, act: Action, st: State)
    ensures Exec(oracle, [act], st) == Perform(oracle, act, st)
  {
    hide Perform;
    assert [act][..0] == [];
  }

  class Replay {
    const oracle: Oracle
    const c: Config
    var trail: seq<Event>
    var excRunning: int
    var sharedUp: bool
    var phycmnDone: bool

    constructor (oracle: Oracle, c: Config)
      ensures this.oracle == oracle && this.c == c && trail == [] && !sharedUp && !phycmnDone
    {
      this.oracle, this.c, trail, excRunning, sharedUp, phycmnDone := oracle, c, [], 0, false, false;
    }

    ghost function St(stopped: bool): State
      reads this
    {
      State(trail, excRunning, stopped)
    }

    /** One guarded step or poll. */
    method Do(act: Action) returns (ok: bool)
      modifies this`trail, this`excRunning
      ensures St(!ok) == Exec(oracle, [act], old(St(false)))
    {
      ExecOne(oracle, act, St(false));
      var answer := oracle(trail, act);
      var (exc, passed) := Outcome(act.rule, answer, excRunning);
      trail, excRunning, ok := trail + [Event(act, answer, passed)], exc, passed;
    }

    /** Steps in a row, up to the first that ends the replay. */
    method DoAll(acts: seq<Action>) returns (ok: bool)
      modifies this`trail, this`excRunning
      ensures St(!ok) == Exec(oracle, acts, old(St(false)))
    {
      hide Perform;
      ok := true;
      for k := 0 to |acts|
        invariant ok && St(false) == Exec(oracle, acts[..k], old(St(false)))
      {
        assert acts[..k + 1] == acts[..k] + [acts[k]];
        ExecConcat(oracle, acts[..k], [acts[k]], old(St(false)));
        ok := Do(acts[k]);
        if !ok {
          assert acts == acts[..k + 1] + acts[k + 1..];
          ExecConcat(oracle, acts[..k + 1], acts[k + 1..], old(St(false)));
          ExecStopped(oracle, acts[k + 1..], St(true));
          return;
        }
      }
      assert acts[..|acts|] == acts;
    }

    /** One part of the script, with `rest` still to come. */
    method Part(acts: seq<Action>, ghost rest: seq<Action>, ghost goal: State) returns (ok: bool)
      requires goal == Exec(oracle, acts + rest, St(false))
      modifies this`trail, this`excRunning
      ensures if ok then goal == Exec(oracle, rest, St(false)) else goal == St(true)
    {
      hide Exec;
      ExecConcat(oracle, acts, rest, St(false));
      ok := DoAll(acts);
      if !ok { ExecStopped(oracle, rest, St(true)); }
    }

    /** The CLK_MODE step. */
    method DoPhycmn(ghost rest: seq<Action>, ghost goal: State) returns (ok: bool)
      requires goal == Exec(oracle, [CLOCK_MODE] + rest, St(false))
      modifies this`trail, this`excRunning
      ensures if ok then goal == Exec(oracle, rest, St(false)) else goal == St(true)
    {
      ok := Part([CLOCK_MODE], rest, goal);
    }

    /** The options up to the handshake. */
    method BeforeHandshake(ghost goal: State) returns (ok: bool)
      requires goal == Exec(oracle, Script(c), St(false)) && !phycmnDone
      modifies this
      ensures if ok then goal == Exec(oracle, From7(c), St(false)) else goal == St(true)
      ensures sharedUp == old(sharedUp) && (ok ==> phycmnDone == c.phycmnFirst)
    {
      hide Exec, Opening, NakedTests, NakedTo, Set5, Extra, From7;
      ok := Part(Opening(c), From1(c), goal);
      if !ok { return; }
      ok := Part(NakedTests(c), From2(c), goal);
      if !ok { return; }
      ok := Part(NakedTo(c, c.clkgenNakedTo, c.clkInto, Post58b), From3(c), goal);
      if !ok { return; }
      ok := Part(Set5(c), From4(c), goal);
      if !ok { return; }
      ok := Part(NakedTo(c, c.pllcoreNakedTo, c.pllInto, Post58c), From5(c), goal);
      if !ok { return; }
      ok := Part(Extra(c), From6(c), goal);
      if !ok { return; }
      assert [] + From7(c) == From7(c);
      if c.phycmnFirst {
        ok := DoPhycmn(From7(c), goal);
        if !ok { return; }
        phycmnDone := true;
      }
    }

    method HandshakeToApply(ghost goal: State) returns (ok: bool)
      requires goal == Exec(oracle, From7(c), St(false)) && phycmnDone == c.phycmnFirst
      modifies this
      ensures if ok then goal == Exec(oracle, From14(c), St(false)) else goal == St(true)
      ensures sharedUp == old(sharedUp) && (ok ==> phycmnDone == (c.phycmnFirst || c.phycmnEarly))
    {
      hide Exec, Handshake, Release, EarlyPokes, AfterClockMode, SharedPost, ApplyPhyIp, From14;
      ok := Part(Handshake(c), From8(c), goal);
      if !ok { return; }
      ok := Part(Release(), From9(c), goal);
      if !ok { return; }
      ok := Part(EarlyPokes(c), From10(c), goal);
      if !ok { return; }
      assert [] + From11(c) == From11(c);
      if c.phycmnEarly && !phycmnDone {
        ok := DoPhycmn(From11(c), goal);
        if !ok { return; }
        phycmnDone := true;
      }
      ok := Part(AfterClockMode(c), From12(c), goal);
      if !ok { return; }
      ok := Part(SharedPost(c), From13(c), goal);
      if !ok { return; }
      ok := Part(ApplyPhyIp(c), From14(c), goal);
    }

    /** The whole replay. `count` is the exception counter at the start, if it could be read. */
    method Run(gate151Active: bool, rcAxiOk: bool, count: Option<int>)
      requires trail == [] && !phycmnDone
      modifies this
      ensures !gate151Active || !rcAxiOk || count.None? ==> trail == [] && !sharedUp
      ensures gate151Active && rcAxiOk && count.Some? ==>
        St(!sharedUp) == Exec(oracle, Script(c), State([], count.value, false))
    {
      sharedUp := false;
      if !gate151Active || !rcAxiOk || count.None? { return; }
      hide Exec, Script, From7, From14;
      excRunning := count.value;
      ghost var goal := Exec(oracle, Script(c), St(false));
      var ok := BeforeHandshake(goal);
      if !ok { return; }
      ok := HandshakeToApply(goal);
      if !ok { return; }
      ok := AfterApply(goal);
      if !ok { return; }
      sharedUp := true;
    }

    method AfterApply(ghost goal: State) returns (ok: bool)
      requires goal == Exec(oracle, From14(c), St(false)) && phycmnDone == (c.phycmnFirst || c.phycmnEarly)
      modifies this`trail, this`excRunning
      ensures goal == St(!ok)
    {
      hide Exec, RcInit;
      assert [] + RcInit() == RcInit() == RcInit() + [];
      if !phycmnDone {
        ok := DoPhycmn(RcInit(), goal);
        if !ok { return; }
      }
      ok := Part(RcInit(), [], goal);
      if ok { ExecNothing(oracle, St(false)); }
    }
  }

  lemma ExecNothing(oracle: Oracle, st: State)
    ensures Exec(oracle, [], st) == st
  {
  }
}
