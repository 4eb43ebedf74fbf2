/** How often the bring-up replay does each of its register steps, and that an option adds its own steps and no other. */
module PhaseFTally {
  import opened Mmio
  import opened PhaseF
  import opened PhaseFSafety
  import opened PhaseFOrder
  import opened PhaseFComesUp

  /** The steps tallied here: writes, reads, naked lists, checks and the once-only steps. Lists and the clock mode are
      counted elsewhere, diagnostic probes are not. */
  predicate Tallied(act: Action) {
    !act.deed.Probe? && !act.deed.Tunables? && !act.deed.ClockModeOn?
  }

  predicate SetsBit5(c: Config, b: Block) {
    c.set5To.Some? && c.set5To.value.exists_ && Usable(c.set5To.value) && c.set5To.value.block == b
  }

  predicate NakedAt(t: Option<Target>, list: Inferred, b: Block) {
    t.Some? && Applies(t.value, list) && t.value.block == b
  }

  predicate Checked(p: Prop, wholeList: bool) {
    p.Entries? && !(wholeList && false in p.sizesKnown)
  }

  /** Power, the two blocks of the root complex, and bit 5 where it is asked for. */
  function DuePokes(c: Config, b: Block): nat {
    AsNat(SetsBit5(c, b)) +
    match b
    case Power => 1
    case Rc => 3 + AsNat(c.phyifRun)
    case PhyShared => AsNat(c.phy4Early) + AsNat(c.sharedPost)
    case _ => 0
  }

  /** Reads whose raise does not matter, and those whose raise does. */
  function DuePeeks(c: Config, b: Block, rule: Rule): nat {
    match rule
    case MayFail =>
      if b.PhyShared? then 2 else if b.Rc? then 2 * AsNat(c.phyifRun) else if b.Power? then AsNat(c.pmgrScan) else 0
    case MustAnswer => 4 * AsNat(b.PhyShared? && c.sharedPost) + 2 * AsNat(SetsBit5(c, b))
    case _ => 0
  }

  function DueNaked(c: Config, b: Block): nat {
    AsNat(b.NoBlock? && c.nakedTest) + AsNat(b.Axi? && c.axi2afNaked && c.axi2afListed)
    + AsNat(NakedAt(c.clkgenNakedTo, c.clkInto, b)) + AsNat(NakedAt(c.pllcoreNakedTo, c.pllInto, b))
  }

  /** Reads behind the phy_ip lists: one per active port behind a filtered list, three behind an on-CPU one. */
  function DueChecks(c: Config, rule: Rule): nat {
    match c.applier
    case OnCpu =>
      if rule.MustAnswerAndLive? then 3 * (AsNat(Checked(c.pll, true)) + AsNat(Checked(c.auspma, true))) else 0
    case CApplicator => if rule.MustLive? then c.activePorts * AsNat(Checked(c.auspma, false)) else 0
    case Filtered =>
      if rule.MustLive? then c.activePorts * (AsNat(Checked(c.pll, false)) + AsNat(Checked(c.auspma, false))) else 0
  }

  /** How often the step is due: the fixed ones, and those of the options that are on. */
  function DueTimes(c: Config, act: Action): nat {
    var b, rule := act.block, act.rule;
    match act.deed
    case Poke => if rule.MustSucceed? then DuePokes(c, b) else 0
    case Peek => DuePeeks(c, b, rule)
    case Naked => if rule.MayFail? then DueNaked(c, b) else 0
    case Verify => if b.PhyIp? then DueChecks(c, rule) else 0
    case Clk0Request => AsNat(b.PhyShared? && rule.MustSucceed?)
    case Clk1Request => AsNat(b.PhyShared? && rule.MustSucceed?)
    case ResetClear => AsNat(b.PhyShared? && rule.MustSucceed?)
    case Marker => AsNat(b.PhyShared? && rule.MustSucceed?)
    case Clk0Ack => AsNat(b.PhyShared? && rule.MustConverge?)
    case Clk1Ack => AsNat(b.PhyShared? && rule.MustConverge?)
    case RcReady => AsNat(b.Rc? && rule.MustConverge?)
    case _ => 0
  }

  function Times(acts: seq<Action>, act: Action): nat {
    multiset(acts)[act]
  }

  lemma TimesConcat(a: seq<Action>, b: seq<Action>, act: Action)
    ensures Times(a + b, act) == Times(a, act) + Times(b, act)
  {
  }

  lemma TimesOne(x: Action, act: Action)
    ensures Times([x], act) == AsNat(x == act) && Times([], act) == 0
  {
  }

  lemma TimesThree(x: Action, y: Action, z: Action, act: Action)
    ensures Times([x, y, z], act) == AsNat(x == act) + AsNat(y == act) + AsNat(z == act)
    ensures Times([x, y], act) == AsNat(x == act) + AsNat(y == act)
  {
    assert [x, y] == [x] + [y] && [x, y, z] == [x] + [y] + [z];
  }

  lemma NotThere(acts: seq<Action>, act: Action)
    requires act !in acts
    ensures Times(acts, act) == 0
  {
  }

  lemma DiagTimes(c: Config, at: Label, act: Action)
    requires Tallied(act)
    ensures Times(Diag(c, at), act) == 0
  {
    NotThere(Diag(c, at), act);
  }

  lemma OpeningTimes(c: Config, act: Action)
    requires Tallied(act)
    ensures Times(Opening(c), act) == AsNat(act == Action(Poke, Power, MustSucceed)) + AsNat(act == Action(Poke, Rc, MustSucceed))
  {
    hide Diag, Times;
    var power, rc := [Action(Poke, Power, MustSucceed)], [Action(Poke, Rc, MustSucceed)];
    var a := Diag(c, Entry) + power;
    var b := a + Diag(c, PostPmgr);
    var d := b + Tunable(c.hasAxi2af, Axi);
    var e := d + rc;
    var f := e + Tunable(c.hasCommon, Rc);
    var g := f + Tunable(c.hasPhy, PhyPacked);
    DiagTimes(c, Entry, act);
    DiagTimes(c, PostPmgr, act);
    DiagTimes(c, PostPhyTunables, act);
    TimesOne(power[0], act);
    TimesOne(rc[0], act);
    NotThere(Tunable(c.hasAxi2af, Axi), act);
    NotThere(Tunable(c.hasCommon, Rc), act);
    NotThere(Tunable(c.hasPhy, PhyPacked), act);
    TimesConcat(Diag(c, Entry), power, act);
    TimesConcat(a, Diag(c, PostPmgr), act);
    TimesConcat(b, Tunable(c.hasAxi2af, Axi), act);
    TimesConcat(d, rc, act);
    TimesConcat(e, Tunable(c.hasCommon, Rc), act);
    TimesConcat(f, Tunable(c.hasPhy, PhyPacked), act);
    TimesConcat(g, Diag(c, PostPhyTunables), act);
  }

  lemma NakedTestsTimes(c: Config, act: Action)
    requires Tallied(act)
    ensures Times(NakedTests(c), act) ==
      AsNat(c.nakedTest && act == Action(Naked, NoBlock, MayFail))
      + AsNat(c.axi2afNaked && c.axi2afListed && act == Action(Naked, Axi, MayFail))
  {
    hide Diag, Times;
    var test, axi := [Action(Naked, NoBlock, MayFail)], [Action(Naked, Axi, MayFail)];
    var listed := if c.axi2afListed then axi else [];
    DiagTimes(c, PostNakedTest, act);
    DiagTimes(c, Post58a, act);
    TimesOne(test[0], act);
    TimesOne(axi[0], act);
    TimesConcat(test, Diag(c, PostNakedTest), act);
    TimesConcat(listed, Diag(c, Post58a), act);
    TimesConcat(if c.nakedTest then test + Diag(c, PostNakedTest) else [],
                if c.axi2afNaked then listed + Diag(c, Post58a) else [], act);
  }

  lemma NakedToTimes(c: Config, t: Option<Target>, list: Inferred, at: Label, act: Action)
    requires Tallied(act)
    ensures Times(NakedTo(c, t, list, at), act) ==
      AsNat(act.deed.Naked? && act.rule.MayFail? && NakedAt(t, list, act.block))
  {
    hide Diag, Times;
    TimesOne(act, act);
    if t.Some? {
      TimesOne(Action(Naked, t.value.block, MayFail), act);
      DiagTimes(c, at, act);
      TimesConcat(if Applies(t.value, list) then [Action(Naked, t.value.block, MayFail)] else [], Diag(c, at), act);
    }
  }

  lemma Set5Times(c: Config, act: Action)
    requires Tallied(act)
    ensures Times(Set5(c), act) ==
      if !SetsBit5(c, act.block) then 0
      else AsNat(act.deed.Poke? && act.rule.MustSucceed?) + 2 * AsNat(act.deed.Peek? && act.rule.MustAnswer?)
  {
    hide Diag, Times;
    TimesOne(act, act);
    if c.set5To.Some? {
      var t := c.set5To.value;
      var peek, poke := Action(Peek, t.block, MustAnswer), Action(Poke, t.block, MustSucceed);
      TimesThree(peek, poke, peek, act);
      DiagTimes(c, Post58b, act);
      TimesConcat(if !t.exists_ || !Usable(t) then [] else [peek, poke, peek], Diag(c, Post58b), act);
    }
  }

  lemma ExtraTimes(c: Config, act: Action)
    requires Tallied(act)
    ensures Times(Extra(c), act) == 0 && Times(FirstClockMode(c), act) == 0 && Times(EarlyClockMode(c), act) == 0
    ensures Times(LastClockMode(c), act) == 0 && Times(AfterClockMode(c), act) == 0
  {
    hide Diag, Times;
    DiagTimes(c, Post55, act);
    DiagTimes(c, PostEarlyClockMode, act);
    DiagTimes(c, PostMarker, act);
    TimesOne(CLOCK_MODE, act);
    var pll, clk := ExtraProp(c.keepPll, c.pllInto), ExtraProp(c.keepClk, c.clkInto);
    NotThere(pll, act);
    NotThere(clk, act);
    TimesConcat(pll, clk, act);
    TimesConcat(pll + clk, Diag(c, Post55), act);
    TimesConcat(if c.phycmnEarly then Diag(c, PostEarlyClockMode) else [], Diag(c, PostMarker), act);
  }

  lemma HandshakeTimes(c: Config, act: Action)
    requires Tallied(act)
    ensures Times(Handshake(c), act) ==
      AsNat(act == Action(Clk0Request, PhyShared, MustSucceed)) + AsNat(act == Action(Clk0Ack, PhyShared, MustConverge))
      + AsNat(act == Action(Clk1Request, PhyShared, MustSucceed)) + AsNat(act == Action(Clk1Ack, PhyShared, MustConverge))
  {
    hide Diag, Times;
    var a := [Action(Clk0Request, PhyShared, MustSucceed), Action(Clk0Ack, PhyShared, MustConverge)];
    var b := [Action(Clk1Request, PhyShared, MustSucceed), Action(Clk1Ack, PhyShared, MustConverge)];
    TimesThree(a[0], a[1], act, act);
    TimesThree(b[0], b[1], act, act);
    DiagTimes(c, PostClk0, act);
    DiagTimes(c, PostClk1, act);
    TimesConcat(a, Diag(c, PostClk0), act);
    TimesConcat(a + Diag(c, PostClk0), b, act);
    TimesConcat(a + Diag(c, PostClk0) + b, Diag(c, PostClk1), act);
  }

  lemma ReleaseTimes(act: Action)
    ensures Times(Release(), act) ==
      AsNat(act == Action(ResetClear, PhyShared, MustSucceed)) + AsNat(act == Action(Marker, PhyShared, MustSucceed))
      + 2 * AsNat(act == Action(Peek, PhyShared, MayFail))
  {
    hide Times;
    var r, p, m := Action(ResetClear, PhyShared, MustSucceed), Action(Peek, PhyShared, MayFail),
      Action(Marker, PhyShared, MustSucceed);
    TimesThree(r, p, act, act);
    TimesThree(m, p, act, act);
    TimesConcat([r, p], [m, p], act);
    assert [r, p] + [m, p] == Release();
  }

  lemma EarlyPokesTimes(c: Config, act: Action)
    requires Tallied(act)
    ensures Times(EarlyPokes(c), act) ==
      AsNat(c.phyifRun && act == Action(Poke, Rc, MustSucceed)) + 2 * AsNat(c.phyifRun && act == Action(Peek, Rc, MayFail))
      + AsNat(c.phy4Early && act == Action(Poke, PhyShared, MustSucceed))
  {
    hide Diag, Times;
    var peek, poke, shared := Action(Peek, Rc, MayFail), Action(Poke, Rc, MustSucceed), Action(Poke, PhyShared, MustSucceed);
    TimesThree(peek, poke, peek, act);
    TimesOne(shared, act);
    DiagTimes(c, Post6i, act);
    TimesConcat([shared], Diag(c, Post6i), act);
    TimesConcat(if c.phyifRun then [peek, poke, peek] else [], if c.phy4Early then [shared] + Diag(c, Post6i) else [], act);
  }

  lemma SharedPostTimes(c: Config, act: Action)
    requires Tallied(act)
    ensures Times(SharedPost(c), act) ==
      AsNat(c.sharedPost && act == Action(Poke, PhyShared, MustSucceed))
      + 4 * AsNat(c.sharedPost && act == Action(Peek, PhyShared, MustAnswer))
      + AsNat(c.pmgrScan && act == Action(Peek, Power, MayFail))
  {
    hide Diag, Times;
    var peek, poke, scan := Action(Peek, PhyShared, MustAnswer), Action(Poke, PhyShared, MustSucceed),
      Action(Peek, Power, MayFail);
    var post := [peek, peek, poke, peek, peek];
    TimesThree(peek, peek, poke, act);
    TimesThree(peek, peek, act, act);
    TimesConcat([peek, peek, poke], [peek, peek], act);
    assert [peek, peek, poke] + [peek, peek] == post;
    TimesOne(scan, act);
    DiagTimes(c, Post65, act);
    TimesConcat(post, Diag(c, Post65), act);
    TimesConcat(if !c.sharedPost then [] else post + Diag(c, Post65), if c.pmgrScan then [scan] else [], act);
  }

  lemma {:induction false} VerifiesTimes(n: nat, rule: Rule, act: Action)
    ensures Times(Verifies(n, rule), act) == if act == Action(Verify, PhyIp, rule) then n else 0
  {
    hide Times;
    if n == 0 {
      TimesOne(act, act);
      assert Verifies(n, rule) == [];
    } else {
      VerifiesTimes(n - 1, rule, act);
      var one := [Action(Verify, PhyIp, rule)];
      TimesOne(one[0], act);
      TimesConcat(Verifies(n - 1, rule), one, act);
      assert Verifies(n, rule) == Verifies(n - 1, rule) + one;
    }
  }

  lemma FilteredTimes(p: Prop, ports: nat, act: Action)
    requires Tallied(act)
    ensures Times(FilteredSteps(p, ports), act) ==
      if p.Entries? && act == Action(Verify, PhyIp, MustLive) then ports else 0
  {
    hide Times;
    TimesOne(act, act);
    if p.Entries? {
      NotThere(EntryActions(p.sizesKnown), act);
      VerifiesTimes(ports, MustLive, act);
      TimesConcat(EntryActions(p.sizesKnown), Verifies(ports, MustLive), act);
    }
  }

  lemma OnCpuTimes(c: Config, p: Prop, at: Label, act: Action)
    requires Tallied(act)
    ensures Times(OnCpuSteps(c, p, at), act) ==
      if Checked(p, true) && act == Action(Verify, PhyIp, MustAnswerAndLive) then 3 else 0
  {
    hide Times, Diag, Verifies;
    TimesOne(act, act);
    if p.Entries? {
      var whole, checks := [Action(Tunables, PhyIp, MustConverge)], Verifies(3, MustAnswerAndLive);
      TimesOne(Action(Tunables, NoBlock, Refused), act);
      TimesOne(whole[0], act);
      VerifiesTimes(3, MustAnswerAndLive, act);
      DiagTimes(c, at, act);
      TimesConcat(whole, checks, act);
      TimesConcat(whole + checks, Diag(c, at), act);
    }
  }

  lemma ApplyTimes(c: Config, act: Action)
    requires Tallied(act)
    ensures Times(ApplyPhyIp(c), act) == if act.deed.Verify? then DueTimes(c, act) else 0
  {
    hide Times, Diag, OnCpuSteps, FilteredSteps;
    match c.applier
    case OnCpu =>
      OnCpuTimes(c, c.pll, PostStubPll, act);
      OnCpuTimes(c, c.auspma, PostStubAuspma, act);
      TimesConcat(OnCpuSteps(c, c.pll, PostStubPll), OnCpuSteps(c, c.auspma, PostStubAuspma), act);
    case CApplicator =>
      var a, b := [Action(Tunables, PhyIp, MustSucceed)], Diag(c, PostApplyLocal);
      TimesOne(a[0], act);
      DiagTimes(c, PostApplyLocal, act);
      FilteredTimes(c.auspma, c.activePorts, act);
      TimesConcat(a, b, act);
      TimesConcat(a + b, FilteredSteps(c.auspma, c.activePorts), act);
    case Filtered =>
      FilteredTimes(c.pll, c.activePorts, act);
      FilteredTimes(c.auspma, c.activePorts, act);
      TimesConcat(FilteredSteps(c.pll, c.activePorts), FilteredSteps(c.auspma, c.activePorts), act);
  }

  lemma RcInitTimes(act: Action)
    ensures Times(RcInit(), act) ==
      2 * AsNat(act == Action(Poke, Rc, MustSucceed)) + AsNat(act == Action(RcReady, Rc, MustConverge))
  {
    hide Times;
    TimesThree(RcInit()[0], RcInit()[1], RcInit()[2], act);
  }

  /** The parts of the script, added up. */
  lemma PartsTimes(c: Config, act: Action)
    ensures Times(Script(c), act) ==
      Times(Opening(c), act) + Times(NakedTests(c), act) + Times(NakedTo(c, c.clkgenNakedTo, c.clkInto, Post58b), act)
      + Times(Set5(c), act) + Times(NakedTo(c, c.pllcoreNakedTo, c.pllInto, Post58c), act) + Times(Extra(c), act)
      + Times(FirstClockMode(c), act) + Times(Handshake(c), act) + Times(Release(), act) + Times(EarlyPokes(c), act)
      + Times(EarlyClockMode(c), act) + Times(AfterClockMode(c), act) + Times(SharedPost(c), act)
      + Times(ApplyPhyIp(c), act) + Times(LastClockMode(c), act) + Times(RcInit(), act)
  {
    hide Times, Opening, NakedTests, NakedTo, Set5, Extra, FirstClockMode, Handshake, Release, EarlyPokes;
    hide EarlyClockMode, AfterClockMode, SharedPost, ApplyPhyIp, LastClockMode, RcInit;
    TimesConcat(Opening(c), From1(c), act);
    TimesConcat(NakedTests(c), From2(c), act);
    TimesConcat(NakedTo(c, c.clkgenNakedTo, c.clkInto, Post58b), From3(c), act);
    TimesConcat(Set5(c), From4(c), act);
    TimesConcat(NakedTo(c, c.pllcoreNakedTo, c.pllInto, Post58c), From5(c), act);
    TimesConcat(Extra(c), From6(c), act);
    TimesConcat(FirstClockMode(c), From7(c), act);
    TimesConcat(Handshake(c), From8(c), act);
    TimesConcat(Release(), From9(c), act);
    TimesConcat(EarlyPokes(c), From10(c), act);
    TimesConcat(EarlyClockMode(c), From11(c), act);
    TimesConcat(AfterClockMode(c), From12(c), act);
    TimesConcat(SharedPost(c), From13(c), act);
    TimesConcat(ApplyPhyIp(c), From14(c), act);
    TimesConcat(LastClockMode(c), RcInit(), act);
  }

  lemma EarlyTimes(c: Config, act: Action)
    requires Tallied(act)
    ensures Times(Opening(c), act) + Times(NakedTests(c), act) + Times(NakedTo(c, c.clkgenNakedTo, c.clkInto, Post58b), act)
      + Times(Set5(c), act) + Times(NakedTo(c, c.pllcoreNakedTo, c.pllInto, Post58c), act) + Times(Extra(c), act)
      + Times(FirstClockMode(c), act) ==
      match act.deed
      case Poke =>
        if act.rule.MustSucceed?
        then AsNat(act.block.Power?) + AsNat(act.block.Rc?) + AsNat(SetsBit5(c, act.block)) else 0
      case Peek => if act.rule.MustAnswer? then 2 * AsNat(SetsBit5(c, act.block)) else 0
      case Naked => if act.rule.MayFail? then DueNaked(c, act.block) else 0
      case _ => 0
  {
    hide Times, Opening, NakedTests, NakedTo, Set5, Extra, FirstClockMode, SetsBit5, NakedAt;
    OpeningTimes(c, act);
    NakedTestsTimes(c, act);
    NakedToTimes(c, c.clkgenNakedTo, c.clkInto, Post58b, act);
    Set5Times(c, act);
    NakedToTimes(c, c.pllcoreNakedTo, c.pllInto, Post58c, act);
    ExtraTimes(c, act);
  }

  lemma LateTimes(c: Config, act: Action)
    requires Tallied(act)
    ensures Times(Handshake(c), act) + Times(Release(), act) + Times(EarlyPokes(c), act)
      + Times(EarlyClockMode(c), act) + Times(AfterClockMode(c), act) + Times(SharedPost(c), act)
      + Times(ApplyPhyIp(c), act) + Times(LastClockMode(c), act) + Times(RcInit(), act) ==
      match act.deed
      case Poke =>
        if !act.rule.MustSucceed? then 0
        else if act.block.Rc? then 2 + AsNat(c.phyifRun)
        else AsNat(act.block.PhyShared? && c.phy4Early) + AsNat(act.block.PhyShared? && c.sharedPost)
      case Peek =>
        if act.rule.MayFail? then DuePeeks(c, act.block, act.rule)
        else 4 * AsNat(act.rule.MustAnswer? && act.block.PhyShared? && c.sharedPost)
      case Naked => 0
      case _ => DueTimes(c, act)
  {
    hide Times, Handshake, Release, EarlyPokes, EarlyClockMode, AfterClockMode, SharedPost, ApplyPhyIp, LastClockMode;
    hide RcInit, DueChecks, DuePokes, DueNaked;
    HandshakeTimes(c, act);
    ReleaseTimes(act);
    EarlyPokesTimes(c, act);
    ExtraTimes(c, act);
    SharedPostTimes(c, act);
    ApplyTimes(c, act);
    RcInitTimes(act);
  }

  lemma ScriptTimes(c: Config, act: Action)
    requires Tallied(act)
    ensures Times(Script(c), act) == DueTimes(c, act)
  {
    hide Times, Script, Opening, NakedTests, NakedTo, Set5, Extra, FirstClockMode, Handshake, Release, EarlyPokes;
    hide EarlyClockMode, AfterClockMode, SharedPost, ApplyPhyIp, LastClockMode, RcInit, SetsBit5, DueNaked, DueChecks;
    PartsTimes(c, act);
    EarlyTimes(c, act);
    LateTimes(c, act);
  }

  /** A run that comes up has done every such step as often as it is due, and one that is stopped no more often. */
  lemma StepsTallied(oracle: Oracle, c: Config, start: int, act: Action)
    requires Tallied(act)
    ensures var r := Exec(oracle, Script(c), State([], start, false));
      && Times(Deeds(r.trail), act) <= DueTimes(c, act)
      && (!r.stopped ==> Times(Deeds(r.trail), act) == DueTimes(c, act))
  {
    hide Exec, Script, SucceededAt, Times, DueTimes;
    var r := Exec(oracle, Script(c), State([], start, false));
    ExecPrefix(oracle, Script(c), start);
    var n := |r.trail|;
    assert Deeds(r.trail) == Script(c)[..n];
    assert Script(c) == Script(c)[..n] + Script(c)[n..];
    TimesConcat(Script(c)[..n], Script(c)[n..], act);
    ScriptTimes(c, act);
    if !r.stopped { assert Script(c)[..n] == Script(c); }
  }
}
