/** What the bring-up replay guarantees on every run, for every setting of its options. */
module PhaseFSafety {
  import opened Mmio
  import opened PhaseF

  // --------------------------------------------------------- what success means

  /** The counter value the replay compares against after these steps. */
  function Counter(trail: seq<Event>, start: int): int {
    if trail == [] then start
    else
      var last := trail[|trail| - 1];
      match last.action.rule
      case MustSucceed | MustConverge | MustLive | MustAnswerAndLive => last.answer.count
      case MustAnswer | MayFail | Refused => Counter(trail[..|trail| - 1], start)
  }

  predicate Success(e: Event, exc: int) {
    !e.answer.escaped
    && match e.action.rule
       case MustSucceed => !e.answer.raised && e.answer.alive && e.answer.count == exc
       case MustConverge => !e.answer.raised && e.answer.alive && e.answer.count == exc && e.answer.converged
       case MustAnswer => !e.answer.raised
       case MustLive => e.answer.alive
       case MustAnswerAndLive => !e.answer.raised && e.answer.alive
       case MayFail => true
       case Refused => false
  }

  predicate SucceededAt(trail: seq<Event>, i: nat, start: int)
    requires i < |trail|
  {
    Success(trail[i], Counter(trail[..i], start))
  }

  /** The events are the first steps of the script. All succeeded, except the last of a run that was stopped. */
  ghost predicate RunsPrefix(acts: seq<Action>, start: int, r: State) {
    && |r.trail| <= |acts|
    && (forall i :: 0 <= i < |r.trail| ==> r.trail[i].action == acts[i])
    && (forall i :: 0 <= i < |r.trail| ==>
         (SucceededAt(r.trail, i, start) <==> !(r.stopped && i == |r.trail| - 1)))
    && (r.stopped ==> r.trail != [])
    && (!r.stopped ==> |r.trail| == |acts| && r.exc == Counter(r.trail, start))
  }

  lemma OneStep(oracle: Oracle, act: Action, st: State, start: int)
    requires !st.stopped && st.exc == Counter(st.trail, start)
    ensures var r := Perform(oracle, act, st);
      && |r.trail| == |st.trail| + 1 && r.trail[..|st.trail|] == st.trail && r.trail[|st.trail|].action == act
      && (SucceededAt(r.trail, |st.trail|, start) <==> !r.stopped)
      && (!r.stopped ==> r.exc == Counter(r.trail, start))
  {
    var r := Perform(oracle, act, st);
    assert r.trail[..|st.trail|] == st.trail;
  }

  lemma {:induction false} ExecPrefix(oracle: Oracle, acts: seq<Action>, start: int)
    ensures RunsPrefix(acts, start, Exec(oracle, acts, State([], start, false)))
  {
    hide Perform, Counter, Success;
    CounterOfNothing(start);
    if acts != [] {
      var before := Exec(oracle, acts[..|acts| - 1], State([], start, false));
      var r := Exec(oracle, acts, State([], start, false));
      ExecPrefix(oracle, acts[..|acts| - 1], start);
      if before.stopped {
        PerformStopped(oracle, acts[|acts| - 1], before);
      } else {
        OneStep(oracle, acts[|acts| - 1], before, start);
        forall i | 0 <= i < |before.trail|
          ensures r.trail[i] == before.trail[i]
          ensures SucceededAt(r.trail, i, start) == SucceededAt(before.trail, i, start)
        {
          assert r.trail[i] == r.trail[..|before.trail|][i];
          assert r.trail[..i] == r.trail[..|before.trail|][..i] == before.trail[..i];
        }
        assert |r.trail| == |before.trail| + 1;
      }
    }
  }

  lemma CounterOfNothing(start: int)
    ensures Counter([], start) == start
  {
  }

  lemma PerformStopped(oracle: Oracle, act: Action, st: State)
    requires st.stopped
    ensures Perform(oracle, act, st) == st
  {
  }

  /** The shared-up flag is set exactly when every step of the script was executed and succeeded. */
  lemma SharedUpIff(oracle: Oracle, c: Config, start: int)
    ensures var r := Exec(oracle, Script(c), State([], start, false));
      !r.stopped <==> |r.trail| == |Script(c)| && forall i :: 0 <= i < |r.trail| ==> SucceededAt(r.trail, i, start)
  {
    hide Exec, Script, SucceededAt;
    ExecPrefix(oracle, Script(c), start);
    var r := Exec(oracle, Script(c), State([], start, false));
    if r.stopped { assert !SucceededAt(r.trail, |r.trail| - 1, start); }
  }

  // -------------------------------------------------------------- what a part lacks

  ghost predicate Without(acts: seq<Action>, d: Deed) {
    forall i :: 0 <= i < |acts| ==> acts[i].deed != d
  }

  /** The deeds whose places in the script matter below. */
  predicate Key(d: Deed) { d.ClockModeOn? || d.Marker? || d.Verify? || d.Tunables? }

  lemma DiagWithout(c: Config, at: Label, d: Deed)
    requires Key(d)
    ensures Without(Diag(c, at), d)
  {
  }

  lemma OpeningWithout(c: Config, d: Deed)
    requires Key(d) && !d.Tunables?
    ensures Without(Opening(c), d)
  {
    hide Diag;
    DiagWithout(c, Entry, d);
    DiagWithout(c, PostPmgr, d);
    DiagWithout(c, PostPhyTunables, d);
  }

  lemma NakedTestsWithout(c: Config, d: Deed)
    requires Key(d)
    ensures Without(NakedTests(c), d)
  {
    hide Diag;
    DiagWithout(c, PostNakedTest, d);
    DiagWithout(c, Post58a, d);
  }

  lemma NakedToWithout(c: Config, t: Option<Target>, list: Inferred, at: Label, d: Deed)
    requires Key(d)
    ensures Without(NakedTo(c, t, list, at), d)
  {
    hide Diag;
    DiagWithout(c, at, d);
  }

  lemma Set5Without(c: Config, d: Deed)
    requires Key(d)
    ensures Without(Set5(c), d)
  {
    hide Diag;
    DiagWithout(c, Post58b, d);
  }

  lemma ExtraWithout(c: Config, d: Deed)
    requires Key(d) && !d.Tunables?
    ensures Without(Extra(c), d)
  {
    hide Diag;
    DiagWithout(c, Post55, d);
  }

  lemma HandshakeWithout(c: Config, d: Deed)
    requires Key(d)
    ensures Without(Handshake(c), d)
  {
    hide Diag;
    DiagWithout(c, PostClk0, d);
    DiagWithout(c, PostClk1, d);
  }

  lemma AfterReleaseWithout(c: Config, d: Deed)
    requires Key(d)
    ensures Without(EarlyPokes(c), d) && Without(AfterClockMode(c), d) && Without(SharedPost(c), d)
  {
    hide Diag;
    DiagWithout(c, Post6i, d);
    DiagWithout(c, PostEarlyClockMode, d);
    DiagWithout(c, PostMarker, d);
    DiagWithout(c, Post65, d);
  }

  lemma AppliersWithout(c: Config, p: Prop, at: Label, d: Deed)
    requires d.ClockModeOn? || d.Marker?
    ensures Without(OnCpuSteps(c, p, at), d) && Without(FilteredSteps(p, c.activePorts), d)
  {
    hide Diag;
    DiagWithout(c, at, d);
  }

  lemma ApplyWithout(c: Config, d: Deed)
    requires d.ClockModeOn? || d.Marker?
    ensures Without(ApplyPhyIp(c), d)
  {
    hide Diag, OnCpuSteps, FilteredSteps;
    AppliersWithout(c, c.pll, PostStubPll, d);
    AppliersWithout(c, c.auspma, PostStubAuspma, d);
    DiagWithout(c, PostApplyLocal, d);
  }

  // ------------------------------------------------------------- CLK_MODE once

  function Count(acts: seq<Action>, d: Deed): nat {
    if acts == [] then 0 else Count(acts[..|acts| - 1], d) + (if acts[|acts| - 1].deed == d then 1 else 0)
  }

  lemma {:induction false} CountConcat(a: seq<Action>, b: seq<Action>, d: Deed)
    ensures Count(a + b, d) == Count(a, d) + Count(b, d)
  {
    if b == [] {
      assert a + b == a;
    } else {
      CountConcat(a, b[..|b| - 1], d);
      assert (a + b)[..|a + b| - 1] == a + b[..|b| - 1];
    }
  }

  lemma {:induction false} CountNone(acts: seq<Action>, d: Deed)
    requires Without(acts, d)
    ensures Count(acts, d) == 0
  {
    if acts != [] { CountNone(acts[..|acts| - 1], d); }
  }

  lemma CountSkip(part: seq<Action>, rest: seq<Action>, d: Deed)
    requires Without(part, d)
    ensures Count(part + rest, d) == Count(rest, d)
  {
    CountConcat(part, rest, d);
    CountNone(part, d);
  }

  /** Exactly one of the three places that may turn the clock mode on does so. */
  lemma OneClockMode(c: Config)
    ensures Count(FirstClockMode(c), ClockModeOn) + Count(EarlyClockMode(c), ClockModeOn) +
            Count(LastClockMode(c), ClockModeOn) == 1
  {
    var one := [CLOCK_MODE];
    assert one[..0] == [] && Count(one, ClockModeOn) == 1;
  }

  lemma CountTail(c: Config)
    ensures Count(From10(c), ClockModeOn) ==
            Count(EarlyClockMode(c), ClockModeOn) + Count(LastClockMode(c), ClockModeOn)
  {
    hide Count, EarlyClockMode, AfterClockMode, SharedPost, ApplyPhyIp, LastClockMode, RcInit, Without, EarlyPokes;
    CountConcat(EarlyClockMode(c), From11(c), ClockModeOn);
    AfterReleaseWithout(c, ClockModeOn);
    ApplyWithout(c, ClockModeOn);
    CountSkip(AfterClockMode(c), From12(c), ClockModeOn);
    CountSkip(SharedPost(c), From13(c), ClockModeOn);
    CountSkip(ApplyPhyIp(c), From14(c), ClockModeOn);
    CountConcat(LastClockMode(c), RcInit(), ClockModeOn);
    CountNone(RcInit(), ClockModeOn) by { RcInitWithout(); }
  }

  lemma RcInitWithout()
    ensures Without(RcInit(), ClockModeOn)
  {
  }

  lemma ReleaseWithout()
    ensures Without(Release(), ClockModeOn)
  {
  }

  lemma CountMiddle(c: Config)
    ensures Count(From6(c), ClockModeOn) == Count(FirstClockMode(c), ClockModeOn) + Count(From10(c), ClockModeOn)
  {
    hide Count, FirstClockMode, Handshake, Release, EarlyPokes, From10, Without, AfterClockMode, SharedPost;
    CountConcat(FirstClockMode(c), From7(c), ClockModeOn);
    HandshakeWithout(c, ClockModeOn);
    ReleaseWithout();
    AfterReleaseWithout(c, ClockModeOn);
    CountSkip(Handshake(c), From8(c), ClockModeOn);
    CountSkip(Release(), From9(c), ClockModeOn);
    CountSkip(EarlyPokes(c), From10(c), ClockModeOn);
  }

  lemma CountHead(c: Config)
    ensures Count(Script(c), ClockModeOn) == Count(From6(c), ClockModeOn)
  {
    hide Count, Opening, NakedTests, NakedTo, Set5, Extra, From6, Without;
    OpeningWithout(c, ClockModeOn);
    NakedTestsWithout(c, ClockModeOn);
    NakedToWithout(c, c.clkgenNakedTo, c.clkInto, Post58b, ClockModeOn);
    Set5Without(c, ClockModeOn);
    NakedToWithout(c, c.pllcoreNakedTo, c.pllInto, Post58c, ClockModeOn);
    ExtraWithout(c, ClockModeOn);
    CountSkip(Opening(c), From1(c), ClockModeOn);
    CountSkip(NakedTests(c), From2(c), ClockModeOn);
    CountSkip(NakedTo(c, c.clkgenNakedTo, c.clkInto, Post58b), From3(c), ClockModeOn);
    CountSkip(Set5(c), From4(c), ClockModeOn);
    CountSkip(NakedTo(c, c.pllcoreNakedTo, c.pllInto, Post58c), From5(c), ClockModeOn);
    CountSkip(Extra(c), From6(c), ClockModeOn);
  }

  function Deeds(trail: seq<Event>): seq<Action> {
    seq(|trail|, i requires 0 <= i < |trail| => trail[i].action)
  }

  /** The clock-mode step is executed at most once on every run, and exactly once on a run that comes up. */
  lemma ClockModeOnce(oracle: Oracle, c: Config, start: int)
    ensures var r := Exec(oracle, Script(c), State([], start, false));
      var times := Count(Deeds(r.trail), ClockModeOn);
      times <= 1 && (!r.stopped ==> times == 1)
  {
    hide Exec, Script, SucceededAt, FirstClockMode, EarlyClockMode, LastClockMode, From6, From10, Count;
    var r := Exec(oracle, Script(c), State([], start, false));
    ExecPrefix(oracle, Script(c), start);
    assert Deeds(r.trail) == Script(c)[..|r.trail|];
    assert Script(c) == Script(c)[..|r.trail|] + Script(c)[|r.trail|..];
    CountConcat(Script(c)[..|r.trail|], Script(c)[|r.trail|..], ClockModeOn);
    CountHead(c);
    CountMiddle(c);
    CountTail(c);
    OneClockMode(c);
    if !r.stopped { assert Script(c)[..|r.trail|] == Script(c); }
  }

  // ------------------------------------------------- what every executed step has done

  /** The rule that goes with a deed. */
  predicate WellRuled(act: Action) {
    match act.deed
    case Clk0Request | Clk1Request | ResetClear | Marker | ClockModeOn | Poke => act.rule.MustSucceed?
    case Clk0Ack | Clk1Ack | RcReady => act.rule.MustConverge?
    case Tunables => act.rule.MustSucceed? || act.rule.MustConverge? || act.rule.Refused?
    case Verify => act.rule.MustLive? || act.rule.MustAnswerAndLive?
    case Peek => act.rule.MustAnswer? || act.rule.MayFail?
    case Probe | Naked => act.rule.MayFail?
  }

  ghost predicate Ruled(acts: seq<Action>) {
    forall i :: 0 <= i < |acts| ==> WellRuled(acts[i])
  }

  lemma DiagRuled(c: Config, at: Label)
    ensures Ruled(Diag(c, at))
  {
  }

  lemma OpeningRuled(c: Config)
    ensures Ruled(Opening(c))
  {
    hide Diag, WellRuled;
    RuledSteps();
    DiagRuled(c, Entry);
    DiagRuled(c, PostPmgr);
    DiagRuled(c, PostPhyTunables);
  }

  /** The register steps, acknowledgements and tunable lists. */
  lemma RuledSteps()
    ensures forall d: Deed, b: Block ::
      d.Clk0Request? || d.Clk1Request? || d.ResetClear? || d.Marker? || d.ClockModeOn? || d.Poke? || d.Tunables? ==>
        WellRuled(Action(d, b, MustSucceed))
    ensures forall d: Deed, b: Block ::
      d.Clk0Ack? || d.Clk1Ack? || d.RcReady? || d.Tunables? ==> WellRuled(Action(d, b, MustConverge))
    ensures forall d: Deed, b: Block :: d.Peek? || d.Probe? || d.Naked? ==> WellRuled(Action(d, b, MayFail))
    ensures forall b: Block :: WellRuled(Action(Peek, b, MustAnswer)) && WellRuled(Action(Tunables, b, Refused))
    ensures forall b: Block :: WellRuled(Action(Verify, b, MustLive)) && WellRuled(Action(Verify, b, MustAnswerAndLive))
  {
  }

  lemma TestsRuled(c: Config)
    ensures Ruled(NakedTests(c)) && Ruled(Set5(c)) && Ruled(Extra(c))
  {
    hide Diag, WellRuled;
    RuledSteps();
    DiagRuled(c, PostNakedTest);
    DiagRuled(c, Post58a);
    DiagRuled(c, Post58b);
    DiagRuled(c, Post55);
  }

  lemma NakedToRuled(c: Config, t: Option<Target>, list: Inferred, at: Label)
    ensures Ruled(NakedTo(c, t, list, at))
  {
    hide Diag, WellRuled;
    RuledSteps();
    DiagRuled(c, at);
  }

  lemma HandshakeRuled(c: Config)
    ensures Ruled(FirstClockMode(c)) && Ruled(Handshake(c)) && Ruled(Release())
  {
    hide Diag, WellRuled;
    RuledSteps();
    DiagRuled(c, PostClk0);
    DiagRuled(c, PostClk1);
  }

  lemma AfterReleaseRuled(c: Config)
    ensures Ruled(EarlyPokes(c)) && Ruled(EarlyClockMode(c)) && Ruled(AfterClockMode(c)) && Ruled(SharedPost(c))
  {
    hide Diag, WellRuled;
    RuledSteps();
    DiagRuled(c, Post6i);
    DiagRuled(c, PostEarlyClockMode);
    DiagRuled(c, PostMarker);
    DiagRuled(c, Post65);
  }

  lemma AppliersRuled(c: Config, p: Prop, at: Label)
    ensures Ruled(OnCpuSteps(c, p, at)) && Ruled(FilteredSteps(p, c.activePorts))
  {
    hide Diag, WellRuled;
    RuledSteps();
    DiagRuled(c, at);
  }

  lemma ApplyRuled(c: Config)
    ensures Ruled(ApplyPhyIp(c)) && Ruled(From14(c))
  {
    hide Diag, WellRuled, OnCpuSteps, FilteredSteps;
    RuledSteps();
    AppliersRuled(c, c.pll, PostStubPll);
    AppliersRuled(c, c.auspma, PostStubAuspma);
    DiagRuled(c, PostApplyLocal);
  }

  lemma ScriptRuled(c: Config)
    ensures Ruled(Script(c))
  {
    OpeningRuled(c);
    TestsRuled(c);
    NakedToRuled(c, c.clkgenNakedTo, c.clkInto, Post58b);
    NakedToRuled(c, c.pllcoreNakedTo, c.pllInto, Post58c);
    HandshakeRuled(c);
    AfterReleaseRuled(c);
    ApplyRuled(c);
    hide Ruled, Opening, NakedTests, NakedTo, Set5, Extra, FirstClockMode, Handshake, Release, EarlyPokes, EarlyClockMode;
    hide AfterClockMode, SharedPost, ApplyPhyIp, From14;
    RuledConcat(ApplyPhyIp(c), From14(c));
    RuledConcat(SharedPost(c), From13(c));
    RuledConcat(AfterClockMode(c), From12(c));
    RuledConcat(EarlyClockMode(c), From11(c));
    RuledConcat(EarlyPokes(c), From10(c));
    RuledConcat(Release(), From9(c));
    RuledConcat(Handshake(c), From8(c));
    RuledConcat(FirstClockMode(c), From7(c));
    RuledConcat(Extra(c), From6(c));
    RuledConcat(NakedTo(c, c.pllcoreNakedTo, c.pllInto, Post58c), From5(c));
    RuledConcat(Set5(c), From4(c));
    RuledConcat(NakedTo(c, c.clkgenNakedTo, c.clkInto, Post58b), From3(c));
    RuledConcat(NakedTests(c), From2(c));
    RuledConcat(Opening(c), From1(c));
  }

  lemma RuledConcat(a: seq<Action>, b: seq<Action>)
    requires Ruled(a) && Ruled(b)
    ensures Ruled(a + b)
  {
    hide WellRuled;
  }

  /** What the device has answered when a step lets the replay go on. */
  predicate GoesWell(e: Event, count: int) {
    var a := e.answer;
    !a.escaped
    && match e.action.deed
       case Clk0Request | Clk1Request | ResetClear | Marker | ClockModeOn | Poke | Tunables =>
         !a.raised && a.alive && a.count == count
       case Clk0Ack | Clk1Ack | RcReady => !a.raised && a.alive && a.count == count && a.converged
       case Verify => a.alive
       case Peek | Probe | Naked => true
  }

  lemma SuccessGoesWell(e: Event, exc: int)
    requires WellRuled(e.action) && Success(e, exc)
    ensures GoesWell(e, exc)
  {
  }

  /** On every run every step but the last of one that was stopped has gone well: no register step with a raise, a dead
      host or a counted exception, and no acknowledgement before the device showed the awaited value. */
  lemma StepsGoWell(oracle: Oracle, c: Config, start: int, i: nat)
    requires var r := Exec(oracle, Script(c), State([], start, false)); i < |r.trail| && (r.stopped ==> i < |r.trail| - 1)
    ensures var r := Exec(oracle, Script(c), State([], start, false)); GoesWell(r.trail[i], Counter(r.trail[..i], start))
  {
    hide Exec, Script, Success, Counter, WellRuled, GoesWell;
    var r := Exec(oracle, Script(c), State([], start, false));
    ExecPrefix(oracle, Script(c), start);
    ScriptRuled(c);
    assert SucceededAt(r.trail, i, start);
    SuccessGoesWell(r.trail[i], Counter(r.trail[..i], start));
  }

  lemma FailureIsTrouble(e: Event, exc: int)
    requires WellRuled(e.action) && !Success(e, exc)
    ensures !GoesWell(e, exc) || e.action.rule.Refused?
            || (e.action.deed.Peek? && e.answer.raised) || (e.action.deed.Tunables? && !e.answer.converged)
            || (e.action.deed.Verify? && e.answer.raised)
  {
  }

  /** And a run is stopped only by a step that has not gone well, a list with nowhere to go or an unknown size, a failure
      code of the on-CPU applier, or a read that raised. */
  lemma StopMeansTrouble(oracle: Oracle, c: Config, start: int)
    requires Exec(oracle, Script(c), State([], start, false)).stopped
    ensures var trail := Exec(oracle, Script(c), State([], start, false)).trail;
      trail != [] &&
      var n := |trail| - 1;
      var e := trail[n];
      || !GoesWell(e, Counter(trail[..n], start)) || e.action.rule.Refused?
      || ((e.action.deed.Peek? || e.action.deed.Verify?) && e.answer.raised)
      || (e.action.deed.Tunables? && !e.answer.converged)
  {
    hide Exec, Script, Success, Counter, WellRuled, GoesWell;
    var r := Exec(oracle, Script(c), State([], start, false));
    ExecPrefix(oracle, Script(c), start);
    ScriptRuled(c);
    assert !SucceededAt(r.trail, |r.trail| - 1, start);
    FailureIsTrouble(r.trail[|r.trail| - 1], Counter(r.trail[..|r.trail| - 1], start));
  }

  /** The step leaves the counter as it was read last. */
  predicate KeepsCounter(d: Deed) {
    d.Peek? || d.Probe? || d.Naked?
  }

  /** The count compared against is the one that the last step of another kind has read, or the one at the start. */
  lemma {:induction false} CounterIs(trail: seq<Event>, start: int, n: nat, k: int)
    requires -1 <= k < n <= |trail|
    requires forall i :: 0 <= i < n ==> WellRuled(trail[i].action) && !trail[i].action.rule.Refused?
    requires k >= 0 ==> !KeepsCounter(trail[k].action.deed)
    requires forall i :: k < i < n ==> KeepsCounter(trail[i].action.deed)
    ensures Counter(trail[..n], start) == if k >= 0 then trail[k].answer.count else start
  {
    if n > 0 {
      assert trail[..n][..n - 1] == trail[..n - 1];
      if k < n - 1 { CounterIs(trail, start, n - 1, k); }
    }
  }

  /** Only the reads behind the phy_ip lists renew the counter: before them it is the one at the start. */
  lemma {:induction false} CounterStays(trail: seq<Event>, start: int, n: nat)
    requires n <= |trail|
    requires forall i :: 0 <= i < n ==>
      WellRuled(trail[i].action) && !trail[i].action.deed.Verify? && SucceededAt(trail, i, start)
    ensures Counter(trail[..n], start) == start
  {
    if n > 0 {
      CounterStays(trail, start, n - 1);
      assert trail[..n][..n - 1] == trail[..n - 1];
    }
  }
}
