/** What has happened, and in which order, when the bring-up replay reports the controller up. */
module PhaseFComesUp {
  import opened Mmio
  import opened PhaseF
  import opened PhaseFSafety
  import opened PhaseFOrder

  // ----------------------------------------------------------------- counting lists

  function AsNat(b: bool): nat { if b then 1 else 0 }

  /** The lists of the steps before the release: the three listed first, and the extra ones that found a block. */
  function DueBefore(c: Config): nat {
    AsNat(c.hasAxi2af) + AsNat(c.hasCommon) + AsNat(c.hasPhy)
    + AsNat(c.extra && c.keepPll && c.pllInto.Into?) + AsNat(c.extra && c.keepClk && c.clkInto.Into?)
  }

  function Listed(p: Prop): nat {
    if p.Missing? then 0 else |p.sizesKnown|
  }

  /** The steps on the phy_ip lists: every selected entry, or one call for a whole list. */
  function DueAfter(c: Config): nat {
    match c.applier
    case OnCpu => AsNat(!c.pll.Missing?) + AsNat(!c.auspma.Missing?)
    case CApplicator => 1 + Listed(c.auspma)
    case Filtered => Listed(c.pll) + Listed(c.auspma)
  }

  predicate SizesKnown(p: Prop) {
    p.Missing? || false !in p.sizesKnown
  }

  predicate AllKnown(c: Config) {
    SizesKnown(c.auspma) && (c.applier.CApplicator? || SizesKnown(c.pll))
  }

  ghost predicate NoneRefused(acts: seq<Action>) {
    forall i :: 0 <= i < |acts| ==> !acts[i].rule.Refused?
  }

  lemma CountOne(act: Action, d: Deed)
    ensures Count([act], d) == AsNat(act.deed == d) && Count([], d) == 0
  {
    assert [act][..0] == [];
  }

  lemma TunableCount(present: bool, block: Block)
    ensures Count(Tunable(present, block), Tunables) == AsNat(present)
  {
    CountOne(Action(Tunables, block, MustSucceed), Tunables);
  }

  lemma OpeningCount(c: Config)
    ensures Count(Opening(c), Tunables) == AsNat(c.hasAxi2af) + AsNat(c.hasCommon) + AsNat(c.hasPhy)
  {
    hide Count, Diag, Tunable, AsNat, Without;
    var power, rc := [Action(Poke, Power, MustSucceed)], [Action(Poke, Rc, MustSucceed)];
    var a := Diag(c, Entry) + power;
    var b := a + Diag(c, PostPmgr);
    var d := b + Tunable(c.hasAxi2af, Axi);
    var e := d + rc;
    var f := e + Tunable(c.hasCommon, Rc);
    var g := f + Tunable(c.hasPhy, PhyPacked);
    DiagCount(c, Entry);
    DiagCount(c, PostPmgr);
    DiagCount(c, PostPhyTunables);
    PokeCount(Power);
    PokeCount(Rc);
    TunableCount(c.hasAxi2af, Axi);
    TunableCount(c.hasCommon, Rc);
    TunableCount(c.hasPhy, PhyPacked);
    CountConcat(Diag(c, Entry), power, Tunables);
    CountConcat(a, Diag(c, PostPmgr), Tunables);
    CountConcat(b, Tunable(c.hasAxi2af, Axi), Tunables);
    CountConcat(d, rc, Tunables);
    CountConcat(e, Tunable(c.hasCommon, Rc), Tunables);
    CountConcat(f, Tunable(c.hasPhy, PhyPacked), Tunables);
    CountConcat(g, Diag(c, PostPhyTunables), Tunables);
  }

  lemma PokeCount(block: Block)
    ensures Count([Action(Poke, block, MustSucceed)], Tunables) == 0
  {
    CountOne(Action(Poke, block, MustSucceed), Tunables);
  }

  lemma DiagCount(c: Config, at: Label)
    ensures Count(Diag(c, at), Tunables) == 0
  {
    hide Diag, Count;
    DiagWithout(c, at, Tunables);
    CountNone(Diag(c, at), Tunables);
  }

  lemma ExtraPropCount(keep: bool, into: Inferred)
    requires NoneRefused(ExtraProp(keep, into))
    ensures Count(ExtraProp(keep, into), Tunables) == AsNat(keep && into.Into?)
  {
    if keep && into.Into? { CountOne(Action(Tunables, into.block, MustSucceed), Tunables); }
    NoBlockRefuses(keep, into);
  }

  lemma NoBlockRefuses(keep: bool, into: Inferred)
    ensures keep && into.NoBlockFits? ==> !NoneRefused(ExtraProp(keep, into))
  {
    if keep && into.NoBlockFits? { assert ExtraProp(keep, into)[0].rule.Refused?; }
  }

  lemma ExtraCount(c: Config)
    requires NoneRefused(Extra(c))
    ensures Count(Extra(c), Tunables) ==
      AsNat(c.extra && c.keepPll && c.pllInto.Into?) + AsNat(c.extra && c.keepClk && c.clkInto.Into?)
  {
    hide Count, Diag, ExtraProp;
    CountOne(CLOCK_MODE, Tunables);
    if c.extra {
      var pll, clk := ExtraProp(c.keepPll, c.pllInto), ExtraProp(c.keepClk, c.clkInto);
      assert pll == Extra(c)[..|pll|] && clk == Extra(c)[|pll|..|pll| + |clk|];
      ExtraPropCount(c.keepPll, c.pllInto);
      ExtraPropCount(c.keepClk, c.clkInto);
      DiagCount(c, Post55);
      CountConcat(pll, clk, Tunables);
      CountConcat(pll + clk, Diag(c, Post55), Tunables);
    }
  }

  lemma BeforeCount(c: Config)
    requires NoneRefused(BeforeRelease(c))
    ensures Count(BeforeRelease(c), Tunables) == DueBefore(c)
  {
    hide Count, Opening, NakedTests, NakedTo, Set5, Extra, FirstClockMode, Handshake, Without, AsNat;
    NakedTestsWithout(c, Tunables);
    NakedToWithout(c, c.clkgenNakedTo, c.clkInto, Post58b, Tunables);
    Set5Without(c, Tunables);
    NakedToWithout(c, c.pllcoreNakedTo, c.pllInto, Post58c, Tunables);
    HandshakeWithout(c, Tunables);
    NoListThere(c);
    OpeningCount(c);
    RefusedNowhere(c);
    ExtraCount(c);
    CountConcat(Opening(c), Till1(c), Tunables);
    CountSkip(NakedTests(c), Till2(c), Tunables);
    CountSkip(NakedTo(c, c.clkgenNakedTo, c.clkInto, Post58b), Till3(c), Tunables);
    CountSkip(Set5(c), Till4(c), Tunables);
    CountSkip(NakedTo(c, c.pllcoreNakedTo, c.pllInto, Post58c), Till5(c), Tunables);
    CountConcat(Extra(c), Till6(c), Tunables);
    CountSkip(FirstClockMode(c), Handshake(c), Tunables);
    CountNone(Handshake(c), Tunables);
  }

  lemma NoListThere(c: Config)
    ensures Without(FirstClockMode(c), Tunables) && Without(EarlyClockMode(c), Tunables)
    ensures Without(LastClockMode(c), Tunables) && Without(RcInit(), Tunables) && Without(Release(), Tunables)
  {
  }

  lemma NoneRefusedIn(a: seq<Action>, b: seq<Action>)
    requires NoneRefused(a + b)
    ensures NoneRefused(a) && NoneRefused(b)
  {
    assert a == (a + b)[..|a|] && b == (a + b)[|a|..];
  }

  lemma RefusedNowhere(c: Config)
    requires NoneRefused(BeforeRelease(c))
    ensures NoneRefused(Extra(c))
  {
    hide NoneRefused, Opening, NakedTests, NakedTo, Set5, Extra, FirstClockMode, Handshake;
    NoneRefusedIn(Opening(c), Till1(c));
    NoneRefusedIn(NakedTests(c), Till2(c));
    NoneRefusedIn(NakedTo(c, c.clkgenNakedTo, c.clkInto, Post58b), Till3(c));
    NoneRefusedIn(Set5(c), Till4(c));
    NoneRefusedIn(NakedTo(c, c.pllcoreNakedTo, c.pllInto, Post58c), Till5(c));
    NoneRefusedIn(Extra(c), Till6(c));
  }

  // ------------------------------------------------------------- the phy_ip lists

  lemma {:induction false} EntriesCount(sizesKnown: seq<bool>)
    ensures Count(EntryActions(sizesKnown), Tunables) == |sizesKnown|
  {
    if sizesKnown != [] {
      var front := sizesKnown[..|sizesKnown| - 1];
      EntriesCount(front);
      assert EntryActions(sizesKnown)[..|front|] == EntryActions(front);
    }
  }

  lemma VerifiesCount(n: nat, rule: Rule)
    ensures Count(Verifies(n, rule), Tunables) == 0
  {
    hide Count;
    CountNone(Verifies(n, rule), Tunables);
  }

  lemma UnknownEntryRefuses(sizesKnown: seq<bool>)
    ensures false in sizesKnown ==> !NoneRefused(EntryActions(sizesKnown))
  {
    if false in sizesKnown {
      var k :| 0 <= k < |sizesKnown| && !sizesKnown[k];
      assert EntryActions(sizesKnown)[k].rule.Refused?;
    }
  }

  lemma UnknownListRefuses(c: Config, p: Prop, at: Label)
    ensures p.Entries? && false in p.sizesKnown ==> !NoneRefused(OnCpuSteps(c, p, at))
  {
    if p.Entries? && false in p.sizesKnown { assert OnCpuSteps(c, p, at)[0].rule.Refused?; }
  }

  lemma FilteredCount(p: Prop, ports: nat)
    requires NoneRefused(FilteredSteps(p, ports))
    ensures SizesKnown(p) && Count(FilteredSteps(p, ports), Tunables) == Listed(p)
  {
    hide Count, EntryActions, Verifies, NoneRefused;
    CountOne(CLOCK_MODE, Tunables);
    if p.Entries? {
      NoneRefusedIn(EntryActions(p.sizesKnown), Verifies(ports, MustLive));
      UnknownEntryRefuses(p.sizesKnown);
      EntriesCount(p.sizesKnown);
      VerifiesCount(ports, MustLive);
      CountConcat(EntryActions(p.sizesKnown), Verifies(ports, MustLive), Tunables);
    }
  }

  lemma OnCpuCount(c: Config, p: Prop, at: Label)
    requires NoneRefused(OnCpuSteps(c, p, at))
    ensures SizesKnown(p) && Count(OnCpuSteps(c, p, at), Tunables) == AsNat(!p.Missing?)
  {
    hide Count, Verifies, Diag;
    var whole := [Action(Tunables, PhyIp, MustConverge)];
    CountOne(whole[0], Tunables);
    if p.Entries? {
      UnknownListRefuses(c, p, at);
      VerifiesCount(3, MustAnswerAndLive);
      DiagCount(c, at);
      CountConcat(whole, Verifies(3, MustAnswerAndLive), Tunables);
      CountConcat(whole + Verifies(3, MustAnswerAndLive), Diag(c, at), Tunables);
    }
  }

  lemma ApplyCount(c: Config)
    requires NoneRefused(ApplyPhyIp(c))
    ensures AllKnown(c) && Count(ApplyPhyIp(c), Tunables) == DueAfter(c)
  {
    hide Count, Diag, OnCpuSteps, FilteredSteps, NoneRefused, SizesKnown;
    match c.applier
    case OnCpu =>
      var a, b := OnCpuSteps(c, c.pll, PostStubPll), OnCpuSteps(c, c.auspma, PostStubAuspma);
      NoneRefusedIn(a, b);
      OnCpuCount(c, c.pll, PostStubPll);
      OnCpuCount(c, c.auspma, PostStubAuspma);
      CountConcat(a, b, Tunables);
    case CApplicator =>
      var a, b := [Action(Tunables, PhyIp, MustSucceed)], Diag(c, PostApplyLocal);
      NoneRefusedIn(a + b, FilteredSteps(c.auspma, c.activePorts));
      FilteredCount(c.auspma, c.activePorts);
      CountOne(a[0], Tunables);
      DiagCount(c, PostApplyLocal);
      CountConcat(a, b, Tunables);
      CountConcat(a + b, FilteredSteps(c.auspma, c.activePorts), Tunables);
    case Filtered =>
      var a, b := FilteredSteps(c.pll, c.activePorts), FilteredSteps(c.auspma, c.activePorts);
      NoneRefusedIn(a, b);
      FilteredCount(c.pll, c.activePorts);
      FilteredCount(c.auspma, c.activePorts);
      CountConcat(a, b, Tunables);
  }

  lemma AfterCount(c: Config)
    requires NoneRefused(From8(c))
    ensures AllKnown(c) && Count(From8(c), Tunables) == DueAfter(c)
  {
    hide Count, Release, EarlyPokes, EarlyClockMode, AfterClockMode, SharedPost, ApplyPhyIp, LastClockMode, RcInit;
    hide Without, NoneRefused, DueAfter, AllKnown;
    NoneRefusedIn(Release(), From9(c));
    NoneRefusedIn(EarlyPokes(c), From10(c));
    NoneRefusedIn(EarlyClockMode(c), From11(c));
    NoneRefusedIn(AfterClockMode(c), From12(c));
    NoneRefusedIn(SharedPost(c), From13(c));
    NoneRefusedIn(ApplyPhyIp(c), From14(c));
    AfterReleaseWithout(c, Tunables);
    NoListThere(c);
    ApplyCount(c);
    CountSkip(Release(), From9(c), Tunables);
    CountSkip(EarlyPokes(c), From10(c), Tunables);
    CountSkip(EarlyClockMode(c), From11(c), Tunables);
    CountSkip(AfterClockMode(c), From12(c), Tunables);
    CountSkip(SharedPost(c), From13(c), Tunables);
    CountConcat(ApplyPhyIp(c), From14(c), Tunables);
    CountSkip(LastClockMode(c), RcInit(), Tunables);
    CountNone(RcInit(), Tunables);
  }

  // ------------------------------------------------------------------ the theorems

  /** A run that comes up has executed the whole script, and nothing in it refuses. */
  lemma ComesUpWhole(oracle: Oracle, c: Config, start: int)
    requires !Exec(oracle, Script(c), State([], start, false)).stopped
    ensures Deeds(Exec(oracle, Script(c), State([], start, false)).trail) == Script(c) && NoneRefused(Script(c))
  {
    hide Exec, Script, Counter;
    var r := Exec(oracle, Script(c), State([], start, false));
    ExecPrefix(oracle, Script(c), start);
    forall i | 0 <= i < |Script(c)| ensures !Script(c)[i].rule.Refused? {
      assert SucceededAt(r.trail, i, start);
    }
  }

  /** Every list due has been applied, entry by entry where the applier goes by entries, those for phy_ip after the reset
      was cleared; no entry of an unknown size was among them. */
  lemma ComesUpApplied(oracle: Oracle, c: Config, start: int)
    requires !Exec(oracle, Script(c), State([], start, false)).stopped
    ensures var deeds := Deeds(Exec(oracle, Script(c), State([], start, false)).trail);
      && |BeforeRelease(c)| < |deeds| && deeds[|BeforeRelease(c)|].deed.ResetClear?
      && Count(deeds[..|BeforeRelease(c)|], Tunables) == DueBefore(c)
      && Count(deeds[|BeforeRelease(c)|..], Tunables) == DueAfter(c)
      && AllKnown(c)
  {
    hide Exec, Script, Count, BeforeRelease, NoneRefused, AllKnown, DueBefore, DueAfter, From9, Deeds;
    ComesUpWhole(oracle, c, start);
    ScriptSplits(c);
    assert From8(c)[0].deed.ResetClear?;
    hide From8;
    NoneRefusedIn(BeforeRelease(c), From8(c));
    BeforeCount(c);
    AfterCount(c);
  }

  /** The steps on lists go to phy_ip, and wait for the on-CPU applier's success code when there is one. */
  ghost predicate ToPhyIp(acts: seq<Action>, onCpu: bool) {
    forall i :: 0 <= i < |acts| && acts[i].deed.Tunables? && !acts[i].rule.Refused? ==>
      acts[i].block.PhyIp? && (onCpu ==> acts[i].rule.MustConverge?)
  }

  lemma ToPhyIpConcat(a: seq<Action>, b: seq<Action>, onCpu: bool)
    requires ToPhyIp(a, onCpu) && ToPhyIp(b, onCpu)
    ensures ToPhyIp(a + b, onCpu)
  {
  }

  lemma WithoutIsToPhyIp(acts: seq<Action>, onCpu: bool)
    requires Without(acts, Tunables)
    ensures ToPhyIp(acts, onCpu)
  {
  }

  lemma AppliersToPhyIp(c: Config, p: Prop, at: Label)
    ensures ToPhyIp(OnCpuSteps(c, p, at), true) && ToPhyIp(FilteredSteps(p, c.activePorts), false)
  {
    hide Diag;
    DiagWithout(c, at, Tunables);
  }

  lemma ApplyToPhyIp(c: Config)
    ensures ToPhyIp(ApplyPhyIp(c), c.applier.OnCpu?)
  {
    hide Diag, OnCpuSteps, FilteredSteps;
    AppliersToPhyIp(c, c.pll, PostStubPll);
    AppliersToPhyIp(c, c.auspma, PostStubAuspma);
    DiagWithout(c, PostApplyLocal, Tunables);
  }

  lemma AfterToPhyIp(c: Config)
    ensures ToPhyIp(From8(c), c.applier.OnCpu?)
  {
    hide Release, EarlyPokes, EarlyClockMode, AfterClockMode, SharedPost, ApplyPhyIp, LastClockMode, RcInit;
    hide Without, ToPhyIp;
    var onCpu := c.applier.OnCpu?;
    AfterReleaseWithout(c, Tunables);
    NoListThere(c);
    ApplyToPhyIp(c);
    WithoutIsToPhyIp(RcInit(), onCpu);
    WithoutIsToPhyIp(LastClockMode(c), onCpu);
    WithoutIsToPhyIp(SharedPost(c), onCpu);
    WithoutIsToPhyIp(AfterClockMode(c), onCpu);
    WithoutIsToPhyIp(EarlyClockMode(c), onCpu);
    WithoutIsToPhyIp(EarlyPokes(c), onCpu);
    WithoutIsToPhyIp(Release(), onCpu);
    ToPhyIpConcat(LastClockMode(c), RcInit(), onCpu);
    ToPhyIpConcat(ApplyPhyIp(c), From14(c), onCpu);
    ToPhyIpConcat(SharedPost(c), From13(c), onCpu);
    ToPhyIpConcat(AfterClockMode(c), From12(c), onCpu);
    ToPhyIpConcat(EarlyClockMode(c), From11(c), onCpu);
    ToPhyIpConcat(EarlyPokes(c), From10(c), onCpu);
    ToPhyIpConcat(Release(), From9(c), onCpu);
  }

  /** Each of those steps on a list for phy_ip was one without a raise, a dead host or a counted exception, and the
      on-CPU applier answered with its success code. */
  lemma ComesUpLists(oracle: Oracle, c: Config, start: int, i: nat)
    requires !Exec(oracle, Script(c), State([], start, false)).stopped
    requires var trail := Exec(oracle, Script(c), State([], start, false)).trail;
      |BeforeRelease(c)| <= i < |trail| && trail[i].action.deed.Tunables?
    ensures var trail := Exec(oracle, Script(c), State([], start, false)).trail;
      && trail[i].action.block.PhyIp? && Observed(trail[i], Tunables, Counter(trail[..i], start))
      && (c.applier.OnCpu? ==> trail[i].answer.converged)
  {
    hide Exec, Script, BeforeRelease, Counter, From8;
    var r := Exec(oracle, Script(c), State([], start, false));
    ComesUpWhole(oracle, c, start);
    ScriptSplits(c);
    AfterToPhyIp(c);
    StepsGoWell(oracle, c, start, i);
    ExecPrefix(oracle, Script(c), start);
    assert SucceededAt(r.trail, i, start) && Deeds(r.trail)[i] == r.trail[i].action;
    assert Script(c)[i] == From8(c)[i - |BeforeRelease(c)|];
  }

  /** The power step is among the first. */
  lemma PowerFirst(c: Config) returns (w: nat)
    ensures w < |Opening(c)| && Opening(c)[w].deed.Poke? && Opening(c)[w].block.Power?
  {
    hide Diag, Tunable;
    w := |Diag(c, Entry)|;
  }

  lemma OpeningIsFirst(c: Config)
    ensures |Opening(c)| <= |BeforeRelease(c)| && Opening(c) <= Script(c)
  {
    hide Opening, From1, Till1;
  }

  lemma ScriptEnds(c: Config)
    ensures |Script(c)| >= |BeforeRelease(c)| + 7
    ensures Script(c)[|Script(c)| - 3..] == RcInit()
  {
    hide Script, BeforeRelease, From8, RcInit, LastClockMode;
    ScriptSplits(c);
    EndsLikeFrom14(c);
    ReleaseAndReady(c);
    assert Script(c)[|Script(c)| - 3..] == From14(c)[|From14(c)| - 3..];
  }

  lemma ReleaseAndReady(c: Config)
    ensures |From8(c)| >= 7 && |RcInit()| == 3 && |Release()| == 4
  {
    hide EarlyPokes, EarlyClockMode, AfterClockMode, SharedPost, ApplyPhyIp, LastClockMode;
  }

  /** Where the clock mode is turned on: right before the handshake, after the marker, or right before the last three
      steps. */
  function ClockModeAt(c: Config): int {
    if c.phycmnFirst then |BeforeRelease(c)| - |Handshake(c)| - 1
    else if c.phycmnEarly then |BeforeRelease(c)| + |Release()| + |EarlyPokes(c)|
    else |Script(c)| - 4
  }

  lemma ClockModeThere(c: Config)
    ensures 0 <= ClockModeAt(c) < |Script(c)| - 3 && Script(c)[ClockModeAt(c)].deed.ClockModeOn?
  {
    hide Script, BeforeRelease, Handshake, Release, EarlyPokes, From11, RcInit, From8;
    ScriptSplits(c);
    ScriptEnds(c);
    if c.phycmnFirst {
      FirstClockModeThere(c);
    } else if c.phycmnEarly {
      EarlyClockModeThere(c);
    } else {
      LastClockModeThere(c);
    }
  }

  lemma FirstClockModeThere(c: Config)
    requires c.phycmnFirst
    ensures var k := |BeforeRelease(c)| - |Handshake(c)| - 1; k >= 0 && BeforeRelease(c)[k].deed.ClockModeOn?
  {
    hide BeforeRelease, Handshake;
    ModeBeforeHandshake(c);
    var last := [CLOCK_MODE] + Handshake(c);
    assert BeforeRelease(c)[|BeforeRelease(c)| - |last|..] == last;
    assert BeforeRelease(c)[|BeforeRelease(c)| - |last|] == last[0];
  }

  lemma ModeBeforeHandshake(c: Config)
    ensures EndsWith(BeforeRelease(c), FirstClockMode(c) + Handshake(c))
  {
    hide Opening, NakedTests, NakedTo, Set5, Extra, FirstClockMode, Handshake, EndsWith;
    var h := Till6(c);
    EndsWithItself(h);
    Prepended(Extra(c), h, h);
    Prepended(NakedTo(c, c.pllcoreNakedTo, c.pllInto, Post58c), Till5(c), h);
    Prepended(Set5(c), Till4(c), h);
    Prepended(NakedTo(c, c.clkgenNakedTo, c.clkInto, Post58b), Till3(c), h);
    Prepended(NakedTests(c), Till2(c), h);
    Prepended(Opening(c), Till1(c), h);
  }

  lemma EarlyClockModeThere(c: Config)
    requires !c.phycmnFirst && c.phycmnEarly
    ensures var k := |Release()| + |EarlyPokes(c)|; k < |From8(c)| - 3 && From8(c)[k].deed.ClockModeOn?
    ensures forall i :: 0 <= i < |Release()| + |EarlyPokes(c)| ==> !From8(c)[i].deed.Tunables?
  {
    hide Release, EarlyPokes, AfterClockMode, SharedPost, ApplyPhyIp, LastClockMode;
    NoListThere(c);
    AfterReleaseWithout(c, Tunables);
  }

  lemma LastClockModeThere(c: Config)
    requires !c.phycmnFirst && !c.phycmnEarly
    ensures var k := |Script(c)| - 4; k >= 0 && Script(c)[k].deed.ClockModeOn?
    ensures forall i :: |Script(c)| - 4 <= i < |Script(c)| ==> !Script(c)[i].deed.Tunables?
  {
    hide Script, EndsWith, RcInit;
    EndsLikeFrom14(c);
    assert From14(c) == [CLOCK_MODE] + RcInit();
    LastFour(c);
  }

  lemma LastFour(c: Config)
    requires EndsWith(Script(c), From14(c)) && !c.phycmnFirst && !c.phycmnEarly
    ensures var k := |Script(c)| - 4; k >= 0 && Script(c)[k].deed.ClockModeOn?
    ensures forall i :: |Script(c)| - 4 <= i < |Script(c)| ==> !Script(c)[i].deed.Tunables?
  {
    var last := From14(c);
    hide Script;
    forall i | 0 <= i < 4 ensures Script(c)[|Script(c)| - 4 + i] == last[i] {
      assert Script(c)[|Script(c)| - |last|..][i] == last[i];
    }
  }

  lemma EndsLikeFrom14(c: Config)
    ensures EndsWith(Script(c), From14(c))
  {
    hide Script, BeforeRelease, Release, EarlyPokes, EarlyClockMode, AfterClockMode, SharedPost, ApplyPhyIp;
    hide EndsWith, From14;
    ScriptSplits(c);
    var last := From14(c);
    EndsWithItself(last);
    Prepended(ApplyPhyIp(c), last, last);
    Prepended(SharedPost(c), From13(c), last);
    Prepended(AfterClockMode(c), From12(c), last);
    Prepended(EarlyClockMode(c), From11(c), last);
    Prepended(EarlyPokes(c), From10(c), last);
    Prepended(Release(), From9(c), last);
    Prepended(BeforeRelease(c), From8(c), last);
  }

  /** The last three events: two writes, and then the readiness the device has shown. */
  predicate EndsReady(trail: seq<Event>, start: int) {
    && |trail| >= 3
    && var n := |trail| - 3;
    && trail[n].action.deed.Poke? && trail[n + 1].action.deed.Poke?
    && trail[n + 2].action.block.Rc? && Shown(trail[n + 2], RcReady, Counter(trail[..n + 2], start))
  }

  lemma ComesUpReady(oracle: Oracle, c: Config, start: int)
    requires !Exec(oracle, Script(c), State([], start, false)).stopped
    ensures EndsReady(Exec(oracle, Script(c), State([], start, false)).trail, start)
  {
    hide Exec, Script, BeforeRelease, Counter;
    var trail := Exec(oracle, Script(c), State([], start, false)).trail;
    ComesUpWhole(oracle, c, start);
    ScriptEnds(c);
    StepsGoWell(oracle, c, start, |trail| - 1);
    var n := |trail| - 3;
    assert Deeds(trail)[n] == RcInit()[0] && Deeds(trail)[n + 1] == RcInit()[1] && Deeds(trail)[n + 2] == RcInit()[2];
  }

  /** The clock mode is on before the handshake if asked for, else after the marker: before the first list for phy_ip if
      asked for, else after all lists. */
  ghost predicate ClockModePlaced(c: Config, trail: seq<Event>, p: seq<nat>, k: int) {
    && |p| == 6 && 0 <= k < |trail| && trail[k].action.deed.ClockModeOn?
    && (if c.phycmnFirst then k < p[0] else p[5] < k)
    && (!c.phycmnFirst ==> forall i :: p[5] < i < |trail| && trail[i].action.deed.Tunables? ==>
          if c.phycmnEarly then k < i else i < k)
  }

  lemma ClockModeIsPlaced(c: Config, trail: seq<Event>, p: seq<nat>)
    requires Deeds(trail) == Script(c) && |p| == 6 && p[0] == |BeforeRelease(c)| - |Handshake(c)|
    requires p[5] == |BeforeRelease(c)| + 2
    ensures ClockModePlaced(c, trail, p, ClockModeAt(c))
  {
    hide Script, BeforeRelease, Handshake, Release, EarlyPokes, From8, RcInit;
    ClockModeThere(c);
    ScriptSplits(c);
    ScriptEnds(c);
    ReleaseAndReady(c);
    var k := ClockModeAt(c);
    forall i | 0 <= i < |trail| ensures trail[i].action == Script(c)[i] { assert Deeds(trail)[i] == trail[i].action; }
    if !c.phycmnFirst {
      if c.phycmnEarly {
        EarlyClockModeThere(c);
        forall i | |BeforeRelease(c)| <= i < k ensures !Script(c)[i].deed.Tunables? {
          assert Script(c)[i] == From8(c)[i - |BeforeRelease(c)|];
        }
      } else {
        LastClockModeThere(c);
      }
    }
  }

  /** The order of a run that comes up: power, the two clocks each requested and acknowledged, the reset cleared, the
      marker set, and at the end the readiness of the root complex; the clock mode is on before the last three steps, where
      the options put it. */
  lemma ComesUpInOrder(oracle: Oracle, c: Config, start: int) returns (w: nat, p: seq<nat>, k: nat)
    requires !Exec(oracle, Script(c), State([], start, false)).stopped
    ensures var trail := Exec(oracle, Script(c), State([], start, false)).trail;
      && PreparedBy(trail, p, start) && EndsReady(trail, start) && p[5] < |trail| - 3
      && w < p[0] && Observed(trail[w], Poke, start) && trail[w].action.block.Power?
      && k < |trail| - 3 && Observed(trail[k], ClockModeOn, Counter(trail[..k], start))
      && ClockModePlaced(c, trail, p, k)
  {
    hide Exec, Script, BeforeRelease, Counter, Opening, PreparedBy, EndsReady, Handshake, ClockModePlaced, ClockModeAt;
    var trail := Exec(oracle, Script(c), State([], start, false)).trail;
    ComesUpWhole(oracle, c, start);
    ComesUpReady(oracle, c, start);
    ScriptEnds(c);
    p := PreparedAtMarker(oracle, c, start);
    w := PowerFirst(c);
    OpeningIsFirst(c);
    PreparedInside(trail, p, start);
    WellBeforeMarker(oracle, c, start, w);
    ClockModeThere(c);
    k := ClockModeAt(c);
    StepsGoWell(oracle, c, start, k);
    assert Deeds(trail)[k] == trail[k].action && Deeds(trail)[w] == trail[w].action;
    ClockModeIsPlaced(c, trail, p);
  }

  lemma PreparedInside(trail: seq<Event>, p: seq<nat>, start: int)
    requires PreparedBy(trail, p, start)
    ensures |p| == 6 && p[0] < p[5] < |trail|
  {
  }
}
