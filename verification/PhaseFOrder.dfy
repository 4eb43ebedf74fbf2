/** When the bring-up replay can reach the phy_ip block before its clocks are acknowledged and its reset released. */
module PhaseFOrder {
  import opened Mmio
  import opened PhaseF
  import opened PhaseFSafety

  // --------------------------------------------------------------- the property

  /** The device has done this: no exception, no dead host, the counter where it was at the start. */
  predicate Observed(e: Event, d: Deed, start: int) {
    && e.action.deed == d
    && !e.answer.escaped && !e.answer.raised && e.answer.alive && e.answer.count == start
  }

  /** And has shown the value that was waited for. */
  predicate Shown(e: Event, d: Deed, start: int) {
    Observed(e, d, start) && e.answer.converged
  }

  /** The two clocks requested and acknowledged, the reset cleared and the marker set, by the events at these places. */
  predicate PreparedBy(trail: seq<Event>, p: seq<nat>, start: int) {
    && |p| == 6 && p[0] < p[1] < p[2] < p[3] < p[4] < p[5] < |trail|
    && (forall k :: 0 <= k < 6 ==> trail[p[k]].action.block.PhyShared?)
    && Observed(trail[p[0]], Clk0Request, start) && Shown(trail[p[1]], Clk0Ack, start)
    && Observed(trail[p[2]], Clk1Request, start) && Shown(trail[p[3]], Clk1Ack, start)
    && Observed(trail[p[4]], ResetClear, start) && Observed(trail[p[5]], Marker, start)
  }

  /** All of that has happened before event i. */
  ghost predicate Prepared(trail: seq<Event>, i: nat, start: int) {
    exists p: seq<nat> :: PreparedBy(trail, p, start) && p[5] < i
  }

  /** No access to the phy_ip block happens unprepared. */
  ghost predicate Careful(trail: seq<Event>, start: int) {
    forall i :: 0 <= i < |trail| && trail[i].action.block.PhyIp? ==> Prepared(trail, i, start)
  }

  // ------------------------------------------- which options allow an early access

  predicate ProbesAt(c: Config, at: Label) { c.diag && c.diagAt == at }

  predicate Names(t: Option<Target>) { t.Some? && t.value.block.PhyIp? && t.value.exists_ }

  /** A naked list goes to phy_ip: the block is named, has an address, and the list has entries. */
  predicate NakedLands(t: Option<Target>, list: Inferred) { Names(t) && !t.value.zero && !list.Absent? }

  /** The inference put a kept extra list on phy_ip, and no list before it failed to find a block. */
  predicate ExtraLands(c: Config) {
    c.extra &&
    ((c.keepPll && c.pllInto == Into(PhyIp)) ||
     (!(c.keepPll && c.pllInto.NoBlockFits?) && c.keepClk && c.clkInto == Into(PhyIp)))
  }

  predicate ExtraAborts(c: Config) {
    c.extra && ((c.keepPll && c.pllInto.NoBlockFits?) || (c.keepClk && c.clkInto.NoBlockFits?))
  }

  predicate EarlyTouch(c: Config) {
    || ProbesAt(c, Entry) || ProbesAt(c, PostPmgr) || ProbesAt(c, PostPhyTunables)
    || (c.nakedTest && ProbesAt(c, PostNakedTest))
    || (c.axi2afNaked && ProbesAt(c, Post58a))
    || NakedLands(c.clkgenNakedTo, c.clkInto) || Names(c.set5To) || NakedLands(c.pllcoreNakedTo, c.pllInto)
    || ((c.clkgenNakedTo.Some? || c.set5To.Some?) && ProbesAt(c, Post58b))
    || (c.pllcoreNakedTo.Some? && ProbesAt(c, Post58c))
    || ExtraLands(c)
    || (!ExtraAborts(c) && ((c.extra && ProbesAt(c, Post55)) || ProbesAt(c, PostClk0) || ProbesAt(c, PostClk1)))
  }

  // ------------------------------------------------- touching, list by list

  predicate Open(acts: seq<Action>) {
    if acts == [] then true else Open(acts[..|acts| - 1]) && !acts[|acts| - 1].rule.Refused?
  }

  /** Some step reaches phy_ip, and no step before it always refuses. */
  predicate Touches(acts: seq<Action>) {
    if acts == [] then false
    else Touches(acts[..|acts| - 1]) || (Open(acts[..|acts| - 1]) && acts[|acts| - 1].block.PhyIp?)
  }

  lemma {:induction false} OpenConcat(a: seq<Action>, b: seq<Action>)
    ensures Open(a + b) <==> Open(a) && Open(b)
  {
    if b == [] {
      assert a + b == a;
    } else {
      OpenConcat(a, b[..|b| - 1]);
      assert (a + b)[..|a + b| - 1] == a + b[..|b| - 1];
    }
  }

  lemma {:induction false} TouchesConcat(a: seq<Action>, b: seq<Action>)
    ensures Touches(a + b) <==> Touches(a) || (Open(a) && Touches(b))
  {
    if b == [] {
      assert a + b == a;
    } else {
      TouchesConcat(a, b[..|b| - 1]);
      OpenConcat(a, b[..|b| - 1]);
      assert (a + b)[..|a + b| - 1] == a + b[..|b| - 1];
    }
  }

  lemma {:induction false} TouchesAt(acts: seq<Action>)
    ensures Touches(acts) <==> exists i :: 0 <= i < |acts| && acts[i].block.PhyIp? && Open(acts[..i])
  {
    if acts != [] {
      var front := acts[..|acts| - 1];
      TouchesAt(front);
      assert forall i :: 0 <= i < |front| ==> acts[..i] == front[..i] && acts[i] == front[i];
      if i :| 0 <= i < |acts| && acts[i].block.PhyIp? && Open(acts[..i]) {
        if i < |front| { assert front[i].block.PhyIp? && Open(front[..i]); }
      }
      if i :| 0 <= i < |front| && front[i].block.PhyIp? && Open(front[..i]) {
        assert acts[i].block.PhyIp? && Open(acts[..i]);
      }
      if Open(front) && acts[|acts| - 1].block.PhyIp? { assert Open(acts[..|acts| - 1]); }
    }
  }

  lemma One(act: Action)
    ensures Open([act]) == !act.rule.Refused? && Touches([act]) == act.block.PhyIp?
    ensures Open([]) && !Touches([])
  {
    assert [act][..0] == [];
  }

  lemma Two(a: Action, b: Action)
    requires !a.rule.Refused?
    ensures Open([a, b]) == !b.rule.Refused? && Touches([a, b]) == (a.block.PhyIp? || b.block.PhyIp?)
  {
    One(a);
    One(b);
    OpenConcat([a], [b]);
    TouchesConcat([a], [b]);
    assert [a] + [b] == [a, b];
  }

  /** Both facts about a concatenation at once. */
  lemma Both(a: seq<Action>, b: seq<Action>)
    ensures Open(a + b) == (Open(a) && Open(b))
    ensures Touches(a + b) == (Touches(a) || (Open(a) && Touches(b)))
  {
    OpenConcat(a, b);
    TouchesConcat(a, b);
  }

  // -------------------------------------------------------- the parts before release

  lemma DiagTouches(c: Config, at: Label)
    ensures Open(Diag(c, at)) && Touches(Diag(c, at)) == ProbesAt(c, at)
  {
    hide Open, Touches;
    var first := [Action(Probe, PhyCommon, MayFail)];
    var scan := if c.reachableScan then [Action(Probe, NoBlock, MayFail)] else [];
    var probe := if at == c.diagAt then [Action(Probe, PhyIp, MayFail)] else [];
    One(Action(Probe, PhyCommon, MayFail));
    One(Action(Probe, NoBlock, MayFail));
    One(Action(Probe, PhyIp, MayFail));
    Both(first, scan);
    Both(first + scan, probe);
  }

  lemma TunableTouches(present: bool, block: Block)
    ensures Open(Tunable(present, block)) && Touches(Tunable(present, block)) == (present && block.PhyIp?)
  {
    One(Action(Tunables, block, MustSucceed));
  }

  lemma OpeningTouches(c: Config)
    ensures Open(Opening(c))
    ensures Touches(Opening(c)) == (ProbesAt(c, Entry) || ProbesAt(c, PostPmgr) || ProbesAt(c, PostPhyTunables))
  {
    hide Open, Touches, Diag, Tunable, ProbesAt;
    var a := Diag(c, Entry) + [Action(Poke, Power, MustSucceed)];
    var b := a + Diag(c, PostPmgr);
    var d := b + Tunable(c.hasAxi2af, Axi);
    var e := d + [Action(Poke, Rc, MustSucceed)];
    var f := e + Tunable(c.hasCommon, Rc);
    var g := f + Tunable(c.hasPhy, PhyPacked);
    One(Action(Poke, Power, MustSucceed));
    One(Action(Poke, Rc, MustSucceed));
    DiagTouches(c, Entry);
    DiagTouches(c, PostPmgr);
    DiagTouches(c, PostPhyTunables);
    TunableTouches(c.hasAxi2af, Axi);
    TunableTouches(c.hasCommon, Rc);
    TunableTouches(c.hasPhy, PhyPacked);
    Both(Diag(c, Entry), [Action(Poke, Power, MustSucceed)]);
    Both(a, Diag(c, PostPmgr));
    Both(b, Tunable(c.hasAxi2af, Axi));
    Both(d, [Action(Poke, Rc, MustSucceed)]);
    Both(e, Tunable(c.hasCommon, Rc));
    Both(f, Tunable(c.hasPhy, PhyPacked));
    Both(g, Diag(c, PostPhyTunables));
  }

  lemma NakedTestsTouches(c: Config)
    ensures Open(NakedTests(c))
    ensures Touches(NakedTests(c)) ==
      ((c.nakedTest && ProbesAt(c, PostNakedTest)) || (c.axi2afNaked && ProbesAt(c, Post58a)))
  {
    hide Open, Touches, Diag, ProbesAt;
    One(Action(Naked, NoBlock, MayFail));
    One(Action(Naked, Axi, MayFail));
    DiagTouches(c, PostNakedTest);
    DiagTouches(c, Post58a);
    Both([Action(Naked, NoBlock, MayFail)], Diag(c, PostNakedTest));
    Both(if c.axi2afListed then [Action(Naked, Axi, MayFail)] else [], Diag(c, Post58a));
    Both(if c.nakedTest then [Action(Naked, NoBlock, MayFail)] + Diag(c, PostNakedTest) else [],
         if c.axi2afNaked
         then (if c.axi2afListed then [Action(Naked, Axi, MayFail)] else []) + Diag(c, Post58a) else []);
  }

  lemma NakedToTouches(c: Config, t: Option<Target>, list: Inferred, at: Label)
    ensures Open(NakedTo(c, t, list, at))
    ensures Touches(NakedTo(c, t, list, at)) == (NakedLands(t, list) || (t.Some? && ProbesAt(c, at)))
  {
    hide Open, Touches, Diag, ProbesAt;
    One(Action(Naked, NoBlock, MayFail));
    if t.Some? {
      One(Action(Naked, t.value.block, MayFail));
      DiagTouches(c, at);
      Both(if Applies(t.value, list) then [Action(Naked, t.value.block, MayFail)] else [], Diag(c, at));
    }
  }

  lemma Set5Touches(c: Config)
    ensures Open(Set5(c))
    ensures Touches(Set5(c)) ==
      (Names(c.set5To) || (c.set5To.Some? && ProbesAt(c, Post58b)))
  {
    hide Open, Touches, Diag, ProbesAt;
    One(Action(Naked, NoBlock, MayFail));
    if c.set5To.Some? {
      var t := c.set5To.value;
      var peek, poke := Action(Peek, t.block, MustAnswer), Action(Poke, t.block, MustSucceed);
      One(peek);
      Two(peek, poke);
      Both([peek, poke], [peek]);
      assert [peek, poke] + [peek] == [peek, poke, peek];
      DiagTouches(c, Post58b);
      Both(if !t.exists_ || !Usable(t) then [] else [peek, poke, peek], Diag(c, Post58b));
    }
  }

  lemma ExtraPropTouches(keep: bool, into: Inferred)
    ensures Open(ExtraProp(keep, into)) == !(keep && into.NoBlockFits?)
    ensures Touches(ExtraProp(keep, into)) == (keep && into == Into(PhyIp))
  {
    hide Open, Touches;
    One(Action(Tunables, NoBlock, Refused));
    if into.Into? { One(Action(Tunables, into.block, MustSucceed)); }
  }

  lemma ExtraTouches(c: Config)
    ensures Open(Extra(c)) == !ExtraAborts(c)
    ensures Touches(Extra(c)) == (ExtraLands(c) || (c.extra && !ExtraAborts(c) && ProbesAt(c, Post55)))
  {
    hide Open, Touches, Diag, ProbesAt, ExtraProp;
    One(Action(Naked, NoBlock, MayFail));
    if c.extra {
      ExtraPropTouches(c.keepPll, c.pllInto);
      ExtraPropTouches(c.keepClk, c.clkInto);
      DiagTouches(c, Post55);
      Both(ExtraProp(c.keepPll, c.pllInto), ExtraProp(c.keepClk, c.clkInto));
      Both(ExtraProp(c.keepPll, c.pllInto) + ExtraProp(c.keepClk, c.clkInto), Diag(c, Post55));
    }
  }

  lemma FirstClockModeTouches(c: Config)
    ensures Open(FirstClockMode(c)) && !Touches(FirstClockMode(c))
  {
    One(CLOCK_MODE);
  }

  lemma HandshakeTouches(c: Config)
    ensures Open(Handshake(c)) && Touches(Handshake(c)) == (ProbesAt(c, PostClk0) || ProbesAt(c, PostClk1))
  {
    hide Open, Touches, Diag, ProbesAt;
    var a := [Action(Clk0Request, PhyShared, MustSucceed), Action(Clk0Ack, PhyShared, MustConverge)];
    var b := [Action(Clk1Request, PhyShared, MustSucceed), Action(Clk1Ack, PhyShared, MustConverge)];
    Two(a[0], a[1]);
    Two(b[0], b[1]);
    DiagTouches(c, PostClk0);
    DiagTouches(c, PostClk1);
    Both(a, Diag(c, PostClk0));
    Both(a + Diag(c, PostClk0), b);
    Both(a + Diag(c, PostClk0) + b, Diag(c, PostClk1));
  }

  // The steps before the release, nested like the script.
  function Till1(c: Config): seq<Action> { NakedTests(c) + Till2(c) }
  function Till2(c: Config): seq<Action> { NakedTo(c, c.clkgenNakedTo, c.clkInto, Post58b) + Till3(c) }
  function Till3(c: Config): seq<Action> { Set5(c) + Till4(c) }
  function Till4(c: Config): seq<Action> { NakedTo(c, c.pllcoreNakedTo, c.pllInto, Post58c) + Till5(c) }
  function Till5(c: Config): seq<Action> { Extra(c) + Till6(c) }
  function Till6(c: Config): seq<Action> { FirstClockMode(c) + Handshake(c) }
  function BeforeRelease(c: Config): seq<Action> { Opening(c) + Till1(c) }

  lemma LateTouches(c: Config)
    ensures Touches(Till5(c)) ==
      (ExtraLands(c)
       || (!ExtraAborts(c) && ((c.extra && ProbesAt(c, Post55)) || ProbesAt(c, PostClk0) || ProbesAt(c, PostClk1))))
  {
    hide Open, Touches, Extra, FirstClockMode, Handshake, ExtraLands, ExtraAborts, ProbesAt;
    ExtraTouches(c);
    FirstClockModeTouches(c);
    HandshakeTouches(c);
    Both(FirstClockMode(c), Handshake(c));
    Both(Extra(c), Till6(c));
  }

  /** The steps before the release can reach phy_ip exactly under the options listed. */
  lemma EarlyTouchExplained(c: Config)
    ensures Touches(BeforeRelease(c)) == EarlyTouch(c)
  {
    hide Open, Touches, Opening, NakedTests, NakedTo, Set5, Till5, ExtraLands, ExtraAborts, ProbesAt, Names, NakedLands;
    OpeningTouches(c);
    NakedTestsTouches(c);
    NakedToTouches(c, c.clkgenNakedTo, c.clkInto, Post58b);
    Set5Touches(c);
    NakedToTouches(c, c.pllcoreNakedTo, c.pllInto, Post58c);
    LateTouches(c);
    Both(NakedTo(c, c.pllcoreNakedTo, c.pllInto, Post58c), Till5(c));
    Both(Set5(c), Till4(c));
    Both(NakedTo(c, c.clkgenNakedTo, c.clkInto, Post58b), Till3(c));
    Both(NakedTests(c), Till2(c));
    Both(Opening(c), Till1(c));
  }

  lemma Regroup(a: seq<Action>, b: seq<Action>, d: seq<Action>)
    ensures (a + b) + d == a + (b + d)
  {
  }

  lemma ScriptSplits(c: Config)
    ensures Script(c) == BeforeRelease(c) + From8(c)
  {
    hide Opening, NakedTests, NakedTo, Set5, Extra, FirstClockMode, Handshake, From8;
    Regroup(FirstClockMode(c), Handshake(c), From8(c));
    Regroup(Extra(c), Till6(c), From8(c));
    Regroup(NakedTo(c, c.pllcoreNakedTo, c.pllInto, Post58c), Till5(c), From8(c));
    Regroup(Set5(c), Till4(c), From8(c));
    Regroup(NakedTo(c, c.clkgenNakedTo, c.clkInto, Post58b), Till3(c), From8(c));
    Regroup(NakedTests(c), Till2(c), From8(c));
    Regroup(Opening(c), Till1(c), From8(c));
  }

  lemma BeforeReleaseWithout(c: Config, d: Deed)
    requires d.Marker? || d.Verify?
    ensures Without(BeforeRelease(c), d)
  {
    hide Opening, NakedTests, NakedTo, Set5, Extra, Handshake;
    OpeningWithout(c, d);
    NakedTestsWithout(c, d);
    NakedToWithout(c, c.clkgenNakedTo, c.clkInto, Post58b, d);
    Set5Without(c, d);
    NakedToWithout(c, c.pllcoreNakedTo, c.pllInto, Post58c, d);
    ExtraWithout(c, d);
    HandshakeWithout(c, d);
  }

  /** The two requests and acknowledgements, in order, at these places. */
  predicate AcksAt(acts: seq<Action>, p: seq<nat>) {
    && |p| == 4 && p[0] < p[1] < p[2] < p[3] < |acts|
    && acts[p[0]].deed == Clk0Request && acts[p[1]].deed == Clk0Ack
    && acts[p[2]].deed == Clk1Request && acts[p[3]].deed == Clk1Ack
    && forall k :: 0 <= k < 4 ==> acts[p[k]].block.PhyShared?
  }

  lemma AcksBeforeRelease(c: Config) returns (p: seq<nat>)
    ensures AcksAt(BeforeRelease(c), p) && p[0] == |BeforeRelease(c)| - |Handshake(c)| >= |Opening(c)|
  {
    hide BeforeRelease, Diag;
    var h := Handshake(c);
    HandshakeIsLast(c);
    var skip := |BeforeRelease(c)| - |h|;
    var second := |Diag(c, PostClk0)| + 2;
    assert h[0].deed == Clk0Request && h[1].deed == Clk0Ack;
    assert h[second].deed == Clk1Request && h[second + 1].deed == Clk1Ack;
    assert BeforeRelease(c)[skip..] == h;
    assert forall k :: 0 <= k < |h| ==> BeforeRelease(c)[skip + k] == h[k];
    OpeningIsBefore(c);
    p := [skip, skip + 1, skip + second, skip + second + 1];
  }

  ghost predicate EndsWith(acts: seq<Action>, last: seq<Action>) {
    |last| <= |acts| && acts[|acts| - |last|..] == last
  }

  lemma Prepended(a: seq<Action>, b: seq<Action>, last: seq<Action>)
    requires EndsWith(b, last)
    ensures EndsWith(a + b, last)
  {
  }

  lemma OpeningIsBefore(c: Config)
    ensures |Opening(c)| + |Handshake(c)| <= |BeforeRelease(c)|
  {
    hide Opening, NakedTests, NakedTo, Set5, Extra, FirstClockMode, Handshake;
  }

  lemma HandshakeIsLast(c: Config)
    ensures EndsWith(BeforeRelease(c), Handshake(c))
  {
    hide Opening, NakedTests, NakedTo, Set5, Extra, FirstClockMode, Handshake, EndsWith;
    var h := Handshake(c);
    EndsWithItself(h);
    Prepended(FirstClockMode(c), h, h);
    Prepended(Extra(c), Till6(c), h);
    Prepended(NakedTo(c, c.pllcoreNakedTo, c.pllInto, Post58c), Till5(c), h);
    Prepended(Set5(c), Till4(c), h);
    Prepended(NakedTo(c, c.clkgenNakedTo, c.clkInto, Post58b), Till3(c), h);
    Prepended(NakedTests(c), Till2(c), h);
    Prepended(Opening(c), Till1(c), h);
  }

  lemma EndsWithItself(acts: seq<Action>)
    ensures EndsWith(acts, acts)
  {
  }

  // ------------------------------------------------------------------ the theorem

  /** A step before the end of the release has gone well if there is a later one, and found the counter unchanged. */
  lemma WellBeforeMarker(oracle: Oracle, c: Config, start: int, i: nat)
    requires i < |Exec(oracle, Script(c), State([], start, false)).trail| - 1 && i < |BeforeRelease(c)| + 4
    ensures GoesWell(Exec(oracle, Script(c), State([], start, false)).trail[i], start)
    ensures i < |Script(c)| && Exec(oracle, Script(c), State([], start, false)).trail[i].action == Script(c)[i]
  {
    hide Exec, Script, BeforeRelease, SucceededAt, GoesWell, WellRuled, Counter, From9;
    var trail := Exec(oracle, Script(c), State([], start, false)).trail;
    ExecPrefix(oracle, Script(c), start);
    ScriptRuled(c);
    ScriptSplits(c);
    BeforeReleaseWithout(c, Verify);
    assert Script(c)[..|BeforeRelease(c)| + 4] == BeforeRelease(c) + Release();
    CounterStays(trail, start, i);
    StepsGoWell(oracle, c, start, i);
  }

  lemma PreparedAtMarker(oracle: Oracle, c: Config, start: int) returns (p: seq<nat>)
    requires |Exec(oracle, Script(c), State([], start, false)).trail| > |BeforeRelease(c)| + 3
    ensures PreparedBy(Exec(oracle, Script(c), State([], start, false)).trail, p, start)
    ensures p[4] == |BeforeRelease(c)| && p[5] == |BeforeRelease(c)| + 2
    ensures p[0] == |BeforeRelease(c)| - |Handshake(c)| >= |Opening(c)|
  {
    hide Exec, Script, BeforeRelease, From9, Opening, Handshake;
    var trail := Exec(oracle, Script(c), State([], start, false)).trail;
    var n := |BeforeRelease(c)|;
    ScriptSplits(c);
    var acks := AcksBeforeRelease(c);
    p := acks + [n, n + 2];
    assert Script(c)[n] == Release()[0] && Script(c)[n + 2] == Release()[2];
    forall k | 0 <= k < 6 ensures GoesWell(trail[p[k]], start) && trail[p[k]].action == Script(c)[p[k]] {
      WellBeforeMarker(oracle, c, start, p[k]);
    }
  }

  /** Once past the marker, every event is prepared. */
  lemma PreparedAfterMarker(oracle: Oracle, c: Config, start: int, i: nat)
    requires i < |Exec(oracle, Script(c), State([], start, false)).trail|
    requires i >= |BeforeRelease(c)| + 3
    ensures Prepared(Exec(oracle, Script(c), State([], start, false)).trail, i, start)
  {
    hide Exec, Script, BeforeRelease, PreparedBy;
    var p := PreparedAtMarker(oracle, c, start);
  }

  /** A device on which everything succeeds. */
  function Healthy(start: int): Oracle {
    (trail, act) => Answer(false, false, true, true, start)
  }

  lemma {:induction false} HealthyReaches(acts: seq<Action>, start: int)
    requires Open(acts)
    ensures var r := Exec(Healthy(start), acts, State([], start, false));
      |r.trail| == |acts| && !r.stopped && r.exc == start
  {
    if acts != [] { HealthyReaches(acts[..|acts| - 1], start); }
  }

  lemma {:induction false} TrailGrows(oracle: Oracle, acts: seq<Action>, st: State)
    ensures |st.trail| <= |Exec(oracle, acts, st).trail|
  {
    hide Outcome;
    if acts != [] { TrailGrows(oracle, acts[..|acts| - 1], st); }
  }

  /** On a healthy device the script gets as far as its first refused step, that step included. */
  lemma HealthyGoesPast(acts: seq<Action>, i: nat, start: int)
    requires i < |acts| && Open(acts[..i])
    ensures i < |Exec(Healthy(start), acts, State([], start, false)).trail|
  {
    hide Exec, Open, Outcome;
    var st := State([], start, false);
    var before := Exec(Healthy(start), acts[..i], st);
    HealthyReaches(acts[..i], start);
    assert acts == acts[..i] + ([acts[i]] + acts[i + 1..]);
    ExecConcat(Healthy(start), acts[..i], [acts[i]] + acts[i + 1..], st);
    ExecConcat(Healthy(start), [acts[i]], acts[i + 1..], before);
    ExecOne(Healthy(start), acts[i], before);
    TrailGrows(Healthy(start), acts[i + 1..], Exec(Healthy(start), [acts[i]], before));
  }

  lemma {:induction false} RefusedStops(oracle: Oracle, acts: seq<Action>, start: int)
    requires !Exec(oracle, acts, State([], start, false)).stopped
    ensures Open(acts)
  {
    if acts != [] { RefusedStops(oracle, acts[..|acts| - 1], start); }
  }

  /** A step that is executed has no refused step before it. */
  lemma ExecutedIsOpen(oracle: Oracle, acts: seq<Action>, i: nat, start: int)
    requires i < |Exec(oracle, acts, State([], start, false)).trail|
    ensures i < |acts| && Open(acts[..i])
  {
    hide Exec, Open, SucceededAt;
    var st := State([], start, false);
    ExecPrefix(oracle, acts, start);
    var before := Exec(oracle, acts[..i], st);
    ExecPrefix(oracle, acts[..i], start);
    assert acts == acts[..i] + acts[i..];
    ExecConcat(oracle, acts[..i], acts[i..], st);
    if before.stopped { ExecStopped(oracle, acts[i..], before); }
    RefusedStops(oracle, acts[..i], start);
  }

  lemma ExecutedTouches(oracle: Oracle, c: Config, start: int, i: nat)
    requires i < |Exec(oracle, Script(c), State([], start, false)).trail| && i < |BeforeRelease(c)|
    requires BeforeRelease(c)[i].block.PhyIp?
    ensures Touches(BeforeRelease(c))
  {
    hide Exec, Script, BeforeRelease, Open, Touches;
    ScriptSplits(c);
    TouchesAt(BeforeRelease(c));
    ExecutedIsOpen(oracle, Script(c), i, start);
    assert Script(c)[..i] == BeforeRelease(c)[..i];
  }

  lemma ReleaseStaysOff(c: Config)
    ensures |Script(c)| >= |BeforeRelease(c)| + 3
    ensures forall i :: |BeforeRelease(c)| <= i < |BeforeRelease(c)| + 3 ==> !Script(c)[i].block.PhyIp?
  {
    hide Script, BeforeRelease, From9;
    ScriptSplits(c);
    assert forall k :: 0 <= k < 3 ==> From8(c)[k] == Release()[k];
  }

  /** Without one of those options, no device can make the replay touch phy_ip unprepared. */
  lemma CarefulUnless(oracle: Oracle, c: Config, start: int)
    requires !EarlyTouch(c)
    ensures Careful(Exec(oracle, Script(c), State([], start, false)).trail, start)
  {
    hide Exec, Script, BeforeRelease, EarlyTouch, Prepared, Open, Touches, SucceededAt;
    var trail := Exec(oracle, Script(c), State([], start, false)).trail;
    var n := |BeforeRelease(c)|;
    ExecPrefix(oracle, Script(c), start);
    ScriptSplits(c);
    EarlyTouchExplained(c);
    ReleaseStaysOff(c);
    forall i | 0 <= i < |trail| && trail[i].action.block.PhyIp?
      ensures Prepared(trail, i, start)
    {
      if i < n {
        ExecutedTouches(oracle, c, start, i);
        assert false;
      }
      PreparedAfterMarker(oracle, c, start, i);
    }
  }

  /** With one of them, a device on which everything succeeds is touched unprepared. */
  lemma NotCarefulIf(c: Config, start: int)
    requires EarlyTouch(c)
    ensures !Careful(Exec(Healthy(start), Script(c), State([], start, false)).trail, start)
  {
    hide Exec, Script, BeforeRelease, EarlyTouch, Open, Touches, SucceededAt;
    var trail := Exec(Healthy(start), Script(c), State([], start, false)).trail;
    ExecPrefix(Healthy(start), Script(c), start);
    ScriptSplits(c);
    EarlyTouchExplained(c);
    TouchesAt(BeforeRelease(c));
    BeforeReleaseWithout(c, Marker);
    var i :| 0 <= i < |BeforeRelease(c)| && BeforeRelease(c)[i].block.PhyIp? && Open(BeforeRelease(c)[..i]);
    assert Script(c)[..i] == BeforeRelease(c)[..i] && Script(c)[i] == BeforeRelease(c)[i];
    HealthyGoesPast(Script(c), i, start);
    assert forall k :: 0 <= k < i ==> trail[k].action == BeforeRelease(c)[k];
    assert !Prepared(trail, i, start);
  }

  /** phy_ip is never touched before its clocks are acknowledged and its reset released, whatever the device does,
      exactly when none of the listed options is in effect. */
  lemma CarefulIff(c: Config, start: int)
    ensures (forall oracle: Oracle :: Careful(Exec(oracle, Script(c), State([], start, false)).trail, start))
            <==> !EarlyTouch(c)
  {
    hide Exec, Script, EarlyTouch, Careful;
    if EarlyTouch(c) {
      NotCarefulIf(c, start);
    } else {
      forall oracle: Oracle
        ensures Careful(Exec(oracle, Script(c), State([], start, false)).trail, start)
      {
        CarefulUnless(oracle, c, start);
      }
    }
  }

  /** In particular with the diagnostic, the naked appliers and the extra tunables all off. */
  lemma OptionsOffIsCareful(oracle: Oracle, c: Config, start: int)
    requires !c.diag && !c.extra
    requires c.clkgenNakedTo.None? && c.set5To.None? && c.pllcoreNakedTo.None?
    ensures Careful(Exec(oracle, Script(c), State([], start, false)).trail, start)
  {
    hide Exec, Script, Careful;
    CarefulUnless(oracle, c, start);
  }
}
