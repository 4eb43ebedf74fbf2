/** Power safety: when no gate comes up, or is even written, before the real gates above it. */
module PmgrSafety {
  import opened Mmio
  import opened Pmgr
  import opened PmgrAnyGraph
  import opened PmgrParentsFirst

  /** How the hardware state is looked at: the register at an address, and whether it was ever written. */
  datatype Observer<!S> = Observer(val: (S, int) -> bv32, armed: (S, int) -> bool)

  /** A register that was never written, or that shows an active gate. */
  predicate Fixed<S>(o: Observer<S>, s: S, a: int) {
    !o.armed(s, a) || IsActive(o.val(s, a))
  }

  /** At any access only written registers of inactive gates may change, and a load that answers shows the register as
      it then is. */
  ghost predicate ReadsTame<S(!new)>(hw: Hardware<S>, o: Observer<S>) {
    forall s: S, a: int :: ReadTame(hw, o, s, a)
  }

  ghost predicate ReadTame<S>(hw: Hardware<S>, o: Observer<S>, s: S, a: int) {
    var (s', r) := hw.read(s, a);
    && (forall b :: o.armed(s', b) == o.armed(s, b))
    && (forall b :: Fixed(o, s, b) ==> o.val(s', b) == o.val(s, b))
    && (r.Some? ==> r.value == o.val(s', a))
  }

  ghost predicate MasksTame<S(!new)>(hw: Hardware<S>, o: Observer<S>) {
    forall s: S, a: int, c: bv32, t: bv32 :: MaskTame(hw, o, s, a, c, t)
  }

  ghost predicate MaskTame<S>(hw: Hardware<S>, o: Observer<S>, s: S, a: int, c: bv32, t: bv32) {
    var s' := hw.mask(s, a, c, t).0;
    && (forall b :: b != a ==> o.armed(s', b) == o.armed(s, b))
    && (forall b :: b != a && Fixed(o, s, b) ==> o.val(s', b) == o.val(s, b))
  }

  predicate Real(gates: Gates, g: int) {
    g in gates && !gates[g].noPs
  }

  predicate HasReg(gates: Gates, g: int) {
    Real(gates, g) && gates[g].psAddr.Some?
  }

  ghost predicate DistinctRegs(gates: Gates) {
    forall g, h :: HasReg(gates, g) && HasReg(gates, h) && g != h ==> gates[g].psAddr != gates[h].psAddr
  }

  predicate On<S>(gates: Gates, o: Observer<S>, s: S, g: int) {
    HasReg(gates, g) && IsActive(o.val(s, gates[g].psAddr.value))
  }

  /** The gate, if real, and every real gate above it are active. */
  ghost predicate AllUp<S>(gates: Gates, o: Observer<S>, s: S, g: int) {
    forall path :: IsPath(gates, path) && path[0] == g && Real(gates, path[|path| - 1]) ==>
      On(gates, o, s, path[|path| - 1])
  }

  ghost predicate ParentsUp<S>(gates: Gates, o: Observer<S>, s: S, g: int) {
    forall p :: IsParent(gates, p, g) ==> AllUp(gates, o, s, p)
  }

  /** Active gates are closed under real ancestors. */
  ghost predicate Closed<S>(gates: Gates, o: Observer<S>, s: S) {
    forall g :: On(gates, o, s, g) ==> AllUp(gates, o, s, g)
  }

  // ---------------------------------------------------------------- state changes

  ghost predicate Mono<S>(gates: Gates, o: Observer<S>, s: S, s': S) {
    forall g :: On(gates, o, s, g) ==> On(gates, o, s', g)
  }

  lemma AllUpMono<S>(gates: Gates, o: Observer<S>, s: S, s': S, g: int)
    requires Mono(gates, o, s, s') && AllUp(gates, o, s, g)
    ensures AllUp(gates, o, s', g)
  {
    hide On, IsPath, Real;
  }

  lemma ParentsUpMono<S>(gates: Gates, o: Observer<S>, s: S, s': S, g: int)
    requires Mono(gates, o, s, s') && ParentsUp(gates, o, s, g)
    ensures ParentsUp(gates, o, s', g)
  {
    hide AllUp, IsParent, Mono;
    forall p | IsParent(gates, p, g) ensures AllUp(gates, o, s', p) { AllUpMono(gates, o, s, s', p); }
  }

  lemma AllUpFromParents<S>(gates: Gates, o: Observer<S>, s: S, g: int)
    requires Real(gates, g) ==> On(gates, o, s, g)
    requires ParentsUp(gates, o, s, g)
    ensures AllUp(gates, o, s, g)
  {
    hide On, Real, IsParent;
    forall path | IsPath(gates, path) && path[0] == g && Real(gates, path[|path| - 1])
      ensures On(gates, o, s, path[|path| - 1])
    {
      if |path| > 1 {
        var above := path[1..];
        assert IsPath(gates, above) && IsParent(gates, above[0], g);
        assert AllUp(gates, o, s, above[0]);
        assert above[|above| - 1] == path[|path| - 1];
      }
    }
  }

  // ------------------------------------------------------------- what goes wrong, and when

  ghost predicate SafeEvent<S>(gates: Gates, o: Observer<S>, e: Event<S>) {
    match e
    case Now(s) => Closed(gates, o, s)
    case Wrote(g, before) => ParentsUp(gates, o, before, g)
    case _ => true
  }

  /** Every state on the way is closed, and at every write all real gates above the written one are active. */
  ghost predicate SafeTrail<S>(gates: Gates, o: Observer<S>, trail: seq<Event<S>>) {
    forall i :: 0 <= i < |trail| ==> SafeEvent(gates, o, trail[i])
  }

  /** No inactive gate that the walk can reach and that has a register is above itself. */
  ghost predicate NoInactiveCycle<S>(gates: Gates, o: Observer<S>, s: S, root: int) {
    forall g :: HasReg(gates, g) && Reaches(gates, root, g) && OnCycle(gates, g) ==> On(gates, o, s, g)
  }

  ghost predicate Unarmed<S>(gates: Gates, o: Observer<S>, s: S) {
    forall g :: HasReg(gates, g) ==> !o.armed(s, gates[g].psAddr.value)
  }

  // ------------------------------------------------------------- the walk's invariant

  /** A walk for the gate `root` from the state `s0`. */
  datatype Start<!S> = Start(gates: Gates, o: Observer<S>, s0: S, root: int)

  function Reg(gates: Gates, g: int): int
    requires HasReg(gates, g)
  {
    gates[g].psAddr.value
  }

  ghost predicate Clear<S>(k: Start<S>) {
    NoInactiveCycle(k.gates, k.o, k.s0, k.root)
  }

  /** A register that was not written is as it was at the start. */
  ghost predicate Unwritten<S>(k: Start<S>, w: World<S>) {
    forall g :: HasReg(k.gates, g) && Writes(w.trail, g) == 0 ==>
      !k.o.armed(w.s, Reg(k.gates, g)) && k.o.val(w.s, Reg(k.gates, g)) == k.o.val(k.s0, Reg(k.gates, g))
  }

  ghost predicate Unvisited<S>(w: World<S>) {
    forall g :: g !in w.visited ==> Writes(w.trail, g) == 0
  }

  ghost predicate KnownParents(gates: Gates, visited: set<int>, g: int) {
    forall p :: IsParent(gates, p, g) ==> p in visited
  }

  /** A gate finishes either because it was up all along, or after its parents were visited and it came up itself. */
  ghost predicate FinishedRight<S>(k: Start<S>, s: S, visited: set<int>, g: int) {
    AllUp(k.gates, k.o, k.s0, g) || (KnownParents(k.gates, visited, g) && (Real(k.gates, g) ==> On(k.gates, k.o, s, g)))
  }

  ghost predicate DoneRight<S>(k: Start<S>, w: World<S>) {
    forall g :: g in Done(w.trail) ==> FinishedRight(k, w.s, w.visited, g)
  }

  /** A write meets a gate that is reachable and off, then and at the start, and off cycles the gates above it are up. */
  ghost predicate EventOk<S>(k: Start<S>, e: Event<S>) {
    match e
    case Now(s) => Clear(k) ==> Closed(k.gates, k.o, s)
    case Wrote(g, before) =>
      && HasReg(k.gates, g) && !On(k.gates, k.o, before, g) && !On(k.gates, k.o, k.s0, g)
      && Cleared(k, before, g)
    case _ => true
  }

  ghost predicate EventsOk<S>(k: Start<S>, trail: seq<Event<S>>) {
    forall i :: 0 <= i < |trail| ==> EventOk(k, trail[i])
  }

  ghost predicate Cleared<S>(k: Start<S>, s: S, g: int) {
    Reaches(k.gates, k.root, g) && (!OnCycle(k.gates, g) ==> ParentsUp(k.gates, k.o, s, g))
  }

  ghost predicate Tracked<S>(k: Start<S>, w: World<S>) {
    && Mono(k.gates, k.o, k.s0, w.s) && Unwritten(k, w) && Unvisited(w)
    && DoneRight(k, w) && EventsOk(k, w.trail) && (Clear(k) ==> Closed(k.gates, k.o, w.s))
  }

  /** Every written register but possibly that of `g` shows an active gate. */
  ghost predicate Steady<S>(k: Start<S>, s: S, g: int) {
    forall h :: HasReg(k.gates, h) && h != g && k.o.armed(s, Reg(k.gates, h)) ==> On(k.gates, k.o, s, h)
  }

  ghost predicate AtRest<S>(k: Start<S>, s: S) {
    forall h :: HasReg(k.gates, h) && k.o.armed(s, Reg(k.gates, h)) ==> On(k.gates, k.o, s, h)
  }

  // ------------------------------------------------------------- one access

  /** What an access to the register of `g` may do: only that gate may change, and only to come up below gates that are
      up unless it is on a cycle. */
  ghost predicate Local<S>(k: Start<S>, s: S, s': S, g: int) {
    && (forall h :: HasReg(k.gates, h) && h != g ==>
          k.o.val(s', Reg(k.gates, h)) == k.o.val(s, Reg(k.gates, h)) &&
          k.o.armed(s', Reg(k.gates, h)) == k.o.armed(s, Reg(k.gates, h)))
    && (On(k.gates, k.o, s, g) ==> On(k.gates, k.o, s', g))
    && (On(k.gates, k.o, s', g) ==> On(k.gates, k.o, s, g) || Cleared(k, s, g))
  }

  lemma OthersStay<S>(k: Start<S>, s: S, s': S, g: int)
    requires Local(k, s, s', g)
    ensures forall h :: h != g ==> On(k.gates, k.o, s', h) == On(k.gates, k.o, s, h)
    ensures Mono(k.gates, k.o, s, s')
  {
    hide IsActive, Cleared;
  }

  lemma ClosedKept<S>(k: Start<S>, s: S, s': S, g: int)
    requires Mono(k.gates, k.o, k.s0, s) && Local(k, s, s', g)
    requires Clear(k) && Closed(k.gates, k.o, s)
    ensures Closed(k.gates, k.o, s')
  {
    OthersStay(k, s, s', g);
    hide AllUp, ParentsUp, On, OnCycle, Reaches;
    forall h | On(k.gates, k.o, s', h) ensures AllUp(k.gates, k.o, s', h) {
      if On(k.gates, k.o, s, h) {
        AllUpMono(k.gates, k.o, s, s', h);
      } else {
        OnHasReg(k.gates, k.o, s', h);
        ParentsUpMono(k.gates, k.o, s, s', g);
        AllUpFromParents(k.gates, k.o, s', g);
      }
    }
  }

  lemma OnHasReg<S>(gates: Gates, o: Observer<S>, s: S, g: int)
    requires On(gates, o, s, g)
    ensures HasReg(gates, g)
  {
  }

  lemma MonoTrans<S>(gates: Gates, o: Observer<S>, s: S, s1: S, s2: S)
    requires Mono(gates, o, s, s1) && Mono(gates, o, s1, s2)
    ensures Mono(gates, o, s, s2)
  {
    hide On;
  }

  /** The record of the access. */
  function Record<S>(w: World<S>, s': S, g: int, wrote: bool): seq<Event<S>> {
    if wrote then w.trail + [Wrote(g, w.s), Now(s')] else w.trail + [Now(s')]
  }

  lemma RecordFacts<S>(w: World<S>, s': S, g: int, wrote: bool)
    ensures var t := Record(w, s', g, wrote);
      && Done(t) == Done(w.trail)
      && forall h :: Writes(t, h) == Writes(w.trail, h) + (if wrote && h == g then 1 else 0)
  {
    var t := Record(w, s', g, wrote);
    if wrote {
      var t1 := w.trail + [Wrote(g, w.s)];
      Snoc(w.trail, Wrote(g, w.s));
      assert t == t1 + [Now(s')];
      Snoc(t1, Now(s'));
      forall h ensures Writes(t, h) == Writes(w.trail, h) + (if h == g then 1 else 0) {
        WritesSnoc(w.trail, Wrote(g, w.s), h);
        WritesSnoc(t1, Now(s'), h);
      }
    } else {
      Snoc(w.trail, Now(s'));
      forall h ensures Writes(t, h) == Writes(w.trail, h) { WritesSnoc(w.trail, Now(s'), h); }
    }
  }

  lemma EventsKept<S>(k: Start<S>, w: World<S>, s': S, g: int, wrote: bool)
    requires EventsOk(k, w.trail) && (Clear(k) ==> Closed(k.gates, k.o, s'))
    requires wrote ==> HasReg(k.gates, g) && !On(k.gates, k.o, w.s, g) && !On(k.gates, k.o, k.s0, g) && Cleared(k, w.s, g)
    ensures EventsOk(k, Record(w, s', g, wrote))
  {
    hide Clear, Closed, On, Cleared;
  }

  lemma FinishedStays<S>(k: Start<S>, s: S, s': S, visited: set<int>, visited': set<int>, g: int)
    requires FinishedRight(k, s, visited, g) && Mono(k.gates, k.o, s, s') && visited <= visited'
    ensures FinishedRight(k, s', visited', g)
  {
    hide On, AllUp, Real;
  }

  /** Any access to the register of a visited gate that behaves locally. */
  lemma AccessTracked<S>(k: Start<S>, w: World<S>, s': S, g: int, wrote: bool)
    requires Tracked(k, w) && HasReg(k.gates, g) && g in w.visited && Local(k, w.s, s', g)
    requires wrote ==> !On(k.gates, k.o, w.s, g) && Cleared(k, w.s, g)
    requires !wrote && !k.o.armed(w.s, Reg(k.gates, g)) ==>
      !k.o.armed(s', Reg(k.gates, g)) && k.o.val(s', Reg(k.gates, g)) == k.o.val(w.s, Reg(k.gates, g))
    ensures Tracked(k, w.(s := s', trail := Record(w, s', g, wrote)))
    ensures Mono(k.gates, k.o, w.s, s')
    ensures Done(Record(w, s', g, wrote)) == Done(w.trail)
    ensures Steady(k, w.s, g) ==> Steady(k, s', g)
  {
    OthersStay(k, w.s, s', g);
    RecordFacts(w, s', g, wrote);
    MonoTrans(k.gates, k.o, k.s0, w.s, s');
    if Clear(k) { ClosedKept(k, w.s, s', g); }
    EventsKept(k, w, s', g, wrote);
    hide On, Closed, Clear, Cleared, Writes, Done, Record, EventsOk, FinishedRight, Mono;
    forall h | h in Done(w.trail) ensures FinishedRight(k, s', w.visited, h) {
      FinishedStays(k, w.s, s', w.visited, w.visited, h);
    }
  }

  /** From tame hardware: a load of `g` while all other written gates are up. */
  lemma LoadLocal<S(!new)>(hw: Hardware<S>, k: Start<S>, s: S, g: int)
    requires ReadsTame(hw, k.o) && DistinctRegs(k.gates) && HasReg(k.gates, g) && Steady(k, s, g)
    requires Cleared(k, s, g) || !k.o.armed(s, Reg(k.gates, g))
    ensures var (s', r) := hw.read(s, Reg(k.gates, g));
      && Local(k, s, s', g) && k.o.armed(s', Reg(k.gates, g)) == k.o.armed(s, Reg(k.gates, g))
      && (!k.o.armed(s, Reg(k.gates, g)) ==> k.o.val(s', Reg(k.gates, g)) == k.o.val(s, Reg(k.gates, g)))
      && (r.Some? ==> IsActive(r.value) == On(k.gates, k.o, s', g))
  {
    hide IsActive, Cleared, DistinctRegs;
    assert ReadTame(hw, k.o, s, Reg(k.gates, g));
  }

  lemma MaskLocal<S(!new)>(hw: Hardware<S>, k: Start<S>, s: S, g: int, c: bv32, t: bv32)
    requires MasksTame(hw, k.o) && DistinctRegs(k.gates) && HasReg(k.gates, g) && Steady(k, s, g)
    requires Cleared(k, s, g) && !On(k.gates, k.o, s, g)
    ensures Local(k, s, hw.mask(s, Reg(k.gates, g), c, t).0, g)
  {
    hide IsActive, Cleared;
    assert MaskTame(hw, k.o, s, Reg(k.gates, g), c, t);
    forall h | HasReg(k.gates, h) && h != g ensures Reg(k.gates, h) != Reg(k.gates, g) {}
  }

  lemma ClearedKept<S>(k: Start<S>, s: S, s': S, g: int)
    requires Cleared(k, s, g) && Mono(k.gates, k.o, s, s')
    ensures Cleared(k, s', g)
  {
    hide OnCycle, Reaches, ParentsUp, Mono;
    if !OnCycle(k.gates, g) { ParentsUpMono(k.gates, k.o, s, s', g); }
  }

  // ------------------------------------------------------------- poking one gate

  /** While the gate is being poked. */
  ghost predicate Poking<S>(k: Start<S>, w: World<S>, g: int) {
    Tracked(k, w) && Steady(k, w.s, g) && HasReg(k.gates, g) && g in w.visited && Cleared(k, w.s, g)
  }

  lemma LoadPoking<S(!new)>(hw: Hardware<S>, k: Start<S>, w: World<S>, g: int)
    requires ReadsTame(hw, k.o) && DistinctRegs(k.gates) && Poking(k, w, g)
    ensures var (w', r) := Load(hw, w, Reg(k.gates, g));
      && Poking(k, w', g) && Mono(k.gates, k.o, w.s, w'.s)
      && (r.Some? ==> IsActive(r.value) == On(k.gates, k.o, w'.s, g))
  {
    hide IsActive, Local, Cleared, Steady, Tracked, ReadsTame, DistinctRegs, On, Mono, Done;
    LoadLocal(hw, k, w.s, g);
    var s' := hw.read(w.s, Reg(k.gates, g)).0;
    assert Record(w, s', g, false) == w.trail + [Now(s')];
    AccessTracked(k, w, s', g, false);
    ClearedKept(k, w.s, s', g);
  }

  lemma MaskPoking<S(!new)>(hw: Hardware<S>, k: Start<S>, w: World<S>, g: int, c: bv32, t: bv32)
    requires MasksTame(hw, k.o) && DistinctRegs(k.gates) && Poking(k, w, g) && !On(k.gates, k.o, w.s, g)
    ensures var w' := Mask(hw, w, g, Reg(k.gates, g), c, t).0;
      Poking(k, w', g) && Mono(k.gates, k.o, w.s, w'.s)
  {
    hide IsActive, Local, Cleared, Steady, MasksTame, DistinctRegs, On, Mono, Done;
    MaskLocal(hw, k, w.s, g, c, t);
    var s' := hw.mask(w.s, Reg(k.gates, g), c, t).0;
    assert Record(w, s', g, true) == w.trail + [Wrote(g, w.s), Now(s')];
    AccessTracked(k, w, s', g, true);
    ClearedKept(k, w.s, s', g);
  }

  lemma {:induction false} PollPoking<S(!new)>(hw: Hardware<S>, k: Start<S>, w: World<S>, g: int, n: nat)
    requires ReadsTame(hw, k.o) && DistinctRegs(k.gates) && Poking(k, w, g) && HasReg(k.gates, g)
    ensures var (w', up) := PollActive(hw, w, Reg(k.gates, g), n);
      && Poking(k, w', g) && Mono(k.gates, k.o, w.s, w'.s)
      && (up.Some? ==> up.value == On(k.gates, k.o, w'.s, g))
    decreases n
  {
    hide Load, IsActive, Poking, On, Mono, ReadsTame, DistinctRegs;
    LoadPoking(hw, k, w, g);
    var (w1, r) := Load(hw, w, Reg(k.gates, g));
    if r.Some? && !IsActive(r.value) && n > 0 {
      PollPoking(hw, k, w1, g, n - 1);
      MonoTrans(k.gates, k.o, w.s, w1.s, PollActive(hw, w1, Reg(k.gates, g), n - 1).0.s);
    }
  }

  lemma RegisterPoking<S(!new)>(hw: Hardware<S>, k: Start<S>, w: World<S>, g: int)
    requires ReadsTame(hw, k.o) && MasksTame(hw, k.o) && DistinctRegs(k.gates)
    requires Poking(k, w, g) && HasReg(k.gates, g) && !On(k.gates, k.o, w.s, g)
    ensures var (w', ok) := PokeRegister(hw, w, g, Reg(k.gates, g));
      && Poking(k, w', g) && Mono(k.gates, k.o, w.s, w'.s)
      && (ok == Some(true) ==> On(k.gates, k.o, w'.s, g))
  {
    hide Mask, PollActive, IsActive, Poking, On, Mono, ReadsTame, MasksTame, DistinctRegs;
    var a := Reg(k.gates, g);
    MaskPoking(hw, k, w, g, CLEAR_1, PS_ACTIVE);
    var (w1, ok1) := Mask(hw, w, g, a, CLEAR_1, PS_ACTIVE);
    if ok1 {
      PollPoking(hw, k, w1, g, hw.extraReads(w1.s));
      var (w2, up) := PollActive(hw, w1, a, hw.extraReads(w1.s));
      MonoTrans(k.gates, k.o, w.s, w1.s, w2.s);
      if up == Some(false) {
        MaskPoking(hw, k, w2, g, PS_AUTO_MASK, AUTO_ACTIVE);
        var (w3, ok3) := Mask(hw, w2, g, a, PS_AUTO_MASK, AUTO_ACTIVE);
        MonoTrans(k.gates, k.o, w.s, w2.s, w3.s);
        if ok3 {
          PollPoking(hw, k, w3, g, hw.extraReads(w3.s));
          MonoTrans(k.gates, k.o, w.s, w3.s, PollActive(hw, w3, a, hw.extraReads(w3.s)).0.s);
        }
      }
    }
  }

  lemma RestIsSteady<S>(k: Start<S>, s: S, g: int)
    ensures AtRest(k, s) ==> Steady(k, s, g)
    ensures Steady(k, s, g) && On(k.gates, k.o, s, g) ==> AtRest(k, s)
  {
    hide On;
  }

  lemma MonoRefl<S>(gates: Gates, o: Observer<S>, s: S)
    ensures Mono(gates, o, s, s)
  {
  }

  /** Poking a gate whose turn it is: it ends up active, or the walk ends. */
  lemma PokeTracked<S(!new)>(hw: Hardware<S>, k: Start<S>, w: World<S>, g: int)
    requires ReadsTame(hw, k.o) && MasksTame(hw, k.o) && DistinctRegs(k.gates)
    requires Tracked(k, w) && AtRest(k, w.s) && g in w.visited && Cleared(k, w.s, g)
    ensures var (w', ok) := PokeGate(hw, k.gates, w, g);
      && Tracked(k, w') && Mono(k.gates, k.o, w.s, w'.s)
      && (ok == Some(true) ==> AtRest(k, w'.s) && (Real(k.gates, g) ==> On(k.gates, k.o, w'.s, g)))
  {
    RestIsSteady(k, w.s, g);
    MonoRefl(k.gates, k.o, w.s);
    hide Load, IsActive, PokeRegister, Tracked, On, Mono, ReadsTame, MasksTame, DistinctRegs, AtRest, Steady, Cleared;
    if HasReg(k.gates, g) {
      assert Poking(k, w, g);
      LoadPoking(hw, k, w, g);
      var (w1, r) := Load(hw, w, Reg(k.gates, g));
      RestIsSteady(k, w1.s, g);
      if r.Some? && !IsActive(r.value) {
        RegisterPoking(hw, k, w1, g);
        var w2 := PokeRegister(hw, w1, g, Reg(k.gates, g)).0;
        MonoTrans(k.gates, k.o, w.s, w1.s, w2.s);
        RestIsSteady(k, w2.s, g);
      }
    }
  }

  // ------------------------------------------------------------- the walk

  lemma EnterTracked<S>(k: Start<S>, w: World<S>, gate: int)
    requires Tracked(k, w) && gate !in w.visited
    ensures Tracked(k, Enter(w, gate)) && Writes(Enter(w, gate).trail, gate) == 0
  {
    MonoRefl(k.gates, k.o, w.s);
    MarkWritesNothing(w, gate);
    Snoc(w.trail, Entered(gate));
    hide Mono, Closed, FinishedRight, Clear, On, Writes;
    forall h | h in Done(w.trail) ensures FinishedRight(k, w.s, w.visited + {gate}, h) {
      FinishedStays(k, w.s, w.s, w.visited, w.visited + {gate}, h);
    }
  }

  lemma FinishTracked<S>(k: Start<S>, w: World<S>, gate: int)
    requires Tracked(k, w) && FinishedRight(k, w.s, w.visited, gate)
    ensures Tracked(k, Finish(w, gate))
  {
    MarkWritesNothing(w, gate);
    Snoc(w.trail, Finished(gate));
    hide Mono, Closed, FinishedRight, Clear, On, Writes;
  }

  /** The fast path is only ever taken by a gate that was active at the start. */
  lemma PeekTracked<S(!new)>(hw: Hardware<S>, k: Start<S>, w: World<S>, g: int)
    requires ReadsTame(hw, k.o) && DistinctRegs(k.gates) && Closed(k.gates, k.o, k.s0)
    requires Tracked(k, w) && AtRest(k, w.s) && g in k.gates && g in w.visited && Writes(w.trail, g) == 0
    ensures var (w', active) := Peek(hw, w, k.gates[g]);
      && Tracked(k, w') && AtRest(k, w'.s) && (active ==> AllUp(k.gates, k.o, k.s0, g))
  {
    hide IsActive, Local, ReadsTame, DistinctRegs, AllUp, Done, Writes, DoneRight, EventsOk, Clear;
    if HasReg(k.gates, g) {
      RestIsSteady(k, w.s, g);
      LoadLocal(hw, k, w.s, g);
      var s' := hw.read(w.s, Reg(k.gates, g)).0;
      assert Record(w, s', g, false) == w.trail + [Now(s')];
      RecordFacts(w, s', g, false);
      AccessTracked(k, w, s', g, false);
      assert Unwritten(k, w.(s := s', trail := w.trail + [Now(s')]));
    }
  }

  ghost predicate Rooted<S>(k: Start<S>, stack: seq<int>, gate: int) {
    if stack == [] then gate == k.root else stack[0] == k.root
  }

  /** Along a path of visited gates off the stack everything is up. */
  lemma {:induction false} AncestorUp<S>(k: Start<S>, w: World<S>, path: seq<int>, i: nat)
    requires Tracked(k, w) && Settled(w) && IsPath(k.gates, path) && i < |path| && path[i] in w.visited
    requires forall j :: i <= j < |path| ==> path[j] !in Stack(w.trail)
    requires Real(k.gates, path[|path| - 1])
    ensures On(k.gates, k.o, w.s, path[|path| - 1])
    decreases |path| - i
  {
    hide On, Stack, Done, IsParent, Unwritten, Unvisited, EventsOk, Closed, Clear, AllUp, IsPath, Real;
    var g := path[i];
    assert FinishedRight(k, w.s, w.visited, g);
    if AllUp(k.gates, k.o, k.s0, g) {
      PathFrom(k.gates, path, i);
      AllUpMono(k.gates, k.o, k.s0, w.s, g);
      UpAlong(k.gates, k.o, w.s, path[i..]);
    } else if i < |path| - 1 {
      NextIsParent(k.gates, path, i);
      AncestorUp(k, w, path, i + 1);
    }
  }

  lemma UpAlong<S>(gates: Gates, o: Observer<S>, s: S, path: seq<int>)
    requires IsPath(gates, path) && AllUp(gates, o, s, path[0]) && Real(gates, path[|path| - 1])
    ensures On(gates, o, s, path[|path| - 1])
  {
    hide On, Real, IsParent;
  }

  lemma NextIsParent(gates: Gates, path: seq<int>, i: nat)
    requires IsPath(gates, path) && i < |path| - 1
    ensures IsParent(gates, path[i + 1], path[i])
  {
    hide IsParent;
  }

  /** All parents visited and the gate on top of the stack: unless the gate is on a cycle, all real gates above are up. */
  lemma ClearedNow<S>(k: Start<S>, w: World<S>, gate: int, below: seq<int>)
    requires Tracked(k, w) && Sound(k.gates, w) && Stack(w.trail) == below + [gate]
    requires Rooted(k, below, gate) && KnownParents(k.gates, w.visited, gate)
    ensures Cleared(k, w.s, gate)
  {
    hide Tracked, Ordered, Done, IsParent, On, Stack, Real, OnCycle;
    var stack := Stack(w.trail);
    assert IsPath(k.gates, stack) && stack[0] == k.root && stack[|stack| - 1] == gate;
    if !OnCycle(k.gates, gate) {
      forall p | IsParent(k.gates, p, gate) ensures AllUp(k.gates, k.o, w.s, p) {
        forall path | IsPath(k.gates, path) && path[0] == p && Real(k.gates, path[|path| - 1])
          ensures On(k.gates, k.o, w.s, path[|path| - 1])
        {
          ParentPathUp(k, w, gate, path);
        }
      }
    }
  }

  lemma ParentPathUp<S>(k: Start<S>, w: World<S>, gate: int, path: seq<int>)
    requires Tracked(k, w) && Settled(w) && !OnCycle(k.gates, gate) && KnownParents(k.gates, w.visited, gate)
    requires IsPath(k.gates, Stack(w.trail)) && Stack(w.trail)[|Stack(w.trail)| - 1] == gate
    requires IsPath(k.gates, path) && IsParent(k.gates, path[0], gate) && Real(k.gates, path[|path| - 1])
    ensures On(k.gates, k.o, w.s, path[|path| - 1])
  {
    hide Tracked, Settled, IsParent, On, Stack, Real, OnCycle;
    var up := [gate] + path;
    PathCons(k.gates, gate, path);
    forall j | 0 <= j < |path| ensures path[j] !in Stack(w.trail) {
      PathFrom(k.gates, up, j + 1);
      if path[j] in Stack(w.trail) { AboveOnStack(k.gates, Stack(w.trail), up[..j + 2]); }
    }
    AncestorUp(k, w, path, 0);
  }

  lemma {:induction false} ChainTracked<S(!new)>(hw: Hardware<S>, k: Start<S>, w: World<S>, gate: int, depth: nat)
    requires depth <= MAX_DEPTH + 1
    requires ReadsTame(hw, k.o) && MasksTame(hw, k.o) && DistinctRegs(k.gates) && Closed(k.gates, k.o, k.s0)
    requires Sound(k.gates, w) && Fits(k.gates, Stack(w.trail), gate) && Rooted(k, Stack(w.trail), gate)
    requires Tracked(k, w) && AtRest(k, w.s)
    ensures var (w', v) := Chain(hw, k.gates, w, gate, depth);
      Tracked(k, w') && (v == Up ==> AtRest(k, w'.s))
    decreases MAX_DEPTH + 1 - depth, 1
  {
    hide Peek, PokeGate, Sound, Stack, Done, Enter, Finish, Tracked, AtRest, Writes, ReadsTame, MasksTame, DistinctRegs,
      Closed, Rooted, Fits, Parents;
    if depth <= MAX_DEPTH && gate !in w.visited {
      EnterTracked(k, w, gate);
      EnterSound(k.gates, w, gate);
      EnterKeeps(w, gate);
      if gate in k.gates {
        var w0 := Enter(w, gate);
        PeekTracked(hw, k, w0, gate);
        PeekStill(hw, k.gates, w0, k.gates[gate]);
        PeekWritesNothing(hw, w0, k.gates[gate]);
        var (w1, active) := Peek(hw, w0, k.gates[gate]);
        if active {
          FastFinish(k, w1, gate);
        } else if k.gates[gate].parents.Some? {
          RestTracked(hw, k, w1, gate, Stack(w.trail), depth);
        }
      }
    }
  }

  lemma EnterKeeps<S>(w: World<S>, gate: int)
    ensures Enter(w, gate).s == w.s && Finish(w, gate).s == w.s && gate in Enter(w, gate).visited
  {
  }

  lemma FastFinish<S>(k: Start<S>, w: World<S>, gate: int)
    requires Tracked(k, w) && AtRest(k, w.s) && AllUp(k.gates, k.o, k.s0, gate)
    ensures Tracked(k, Finish(w, gate)) && AtRest(k, Finish(w, gate).s)
  {
    hide Tracked, AtRest, AllUp;
    FinishTracked(k, w, gate);
  }

  lemma ToldStack<S>(k: Start<S>, stack: seq<int>, gate: int)
    requires Rooted(k, stack, gate)
    ensures Rooted(k, stack + [gate], gate)
    ensures (stack + [gate])[|stack + [gate]| - 1] == gate
  {
  }

  /** The gate is entered and not active: its parents, then the gate itself. */
  lemma {:induction false} RestTracked<S(!new)>(
      hw: Hardware<S>, k: Start<S>, w1: World<S>, gate: int, below: seq<int>, depth: nat)
    requires depth <= MAX_DEPTH && gate in k.gates && k.gates[gate].parents.Some? && gate in w1.visited
    requires ReadsTame(hw, k.o) && MasksTame(hw, k.o) && DistinctRegs(k.gates) && Closed(k.gates, k.o, k.s0)
    requires Sound(k.gates, w1) && Stack(w1.trail) == below + [gate] && Rooted(k, below, gate)
    requires Tracked(k, w1) && AtRest(k, w1.s)
    ensures var (w2, v) := Parents(hw, k.gates, w1, gate, k.gates[gate].parents.value, depth);
      && Tracked(k, w2)
      && (v == Up ==>
            var (w3, ok) := PokeGate(hw, k.gates, w2, gate);
            && Tracked(k, w3)
            && (ok == Some(true) ==> Tracked(k, Finish(w3, gate)) && AtRest(k, Finish(w3, gate).s)))
    decreases MAX_DEPTH + 1 - depth, 0, |k.gates[gate].parents.value| + 1
  {
    hide PokeGate, Sound, Stack, Done, Finish, Tracked, AtRest, Writes, ReadsTame, MasksTame, DistinctRegs, Closed,
      Rooted, Parents, Cleared, On, Real;
    var ps := k.gates[gate].parents.value;
    ToldStack(k, below, gate);
    ParentsTracked(hw, k, w1, gate, ps, depth);
    ParentsOrdered(hw, k.gates, w1, gate, ps, depth);
    var (w2, v) := Parents(hw, k.gates, w1, gate, ps, depth);
    if v == Up {
      ClearedNow(k, w2, gate, below);
      PokeTracked(hw, k, w2, gate);
      var (w3, ok) := PokeGate(hw, k.gates, w2, gate);
      ParentsKnown(k.gates, w2, gate, below);
      PokeStill(hw, k.gates, w2, gate);
      EnterKeeps(w3, gate);
      if ok == Some(true) { FinishTracked(k, w3, gate); }
    }
  }

  lemma {:induction false} ParentsTracked<S(!new)>(
      hw: Hardware<S>, k: Start<S>, w: World<S>, gate: int, ps: seq<int>, depth: nat)
    requires depth <= MAX_DEPTH
    requires ReadsTame(hw, k.o) && MasksTame(hw, k.o) && DistinctRegs(k.gates) && Closed(k.gates, k.o, k.s0)
    requires Sound(k.gates, w) && Stack(w.trail) != [] && Stack(w.trail)[|Stack(w.trail)| - 1] == gate
    requires Rooted(k, Stack(w.trail), gate) && Tracked(k, w) && AtRest(k, w.s)
    requires forall i :: 0 <= i < |ps| && ps[i] != 0 && ps[i] != gate ==> IsParent(k.gates, ps[i], gate)
    ensures var (w', v) := Parents(hw, k.gates, w, gate, ps, depth);
      Tracked(k, w') && (v == Up ==> AtRest(k, w'.s))
    decreases MAX_DEPTH + 1 - depth, 0, |ps|
  {
    hide Chain, Sound, Stack, Tracked, AtRest, ReadsTame, MasksTame, DistinctRegs, Closed, IsParent;
    if ps != [] {
      if ps[0] == 0 || ps[0] == gate {
        ParentsTracked(hw, k, w, gate, ps[1..], depth);
      } else {
        ChainTracked(hw, k, w, ps[0], depth + 1);
        ChainOrdered(hw, k.gates, w, ps[0], depth + 1);
        var (w', v) := Chain(hw, k.gates, w, ps[0], depth + 1);
        if v == Up { ParentsTracked(hw, k, w', gate, ps[1..], depth); }
      }
    }
  }

  // ------------------------------------------------------------- the theorems

  lemma StartTracked<S>(k: Start<S>)
    requires Closed(k.gates, k.o, k.s0) && Unarmed(k.gates, k.o, k.s0)
    ensures var w := World(k.s0, {}, []);
      Tracked(k, w) && AtRest(k, k.s0) && Sound(k.gates, w) && Stack(w.trail) == []
  {
    MonoRefl(k.gates, k.o, k.s0);
    hide On, Closed;
  }

  /** What holds of every walk, whatever its graph and however it ends. */
  lemma WalkTracked<S(!new)>(hw: Hardware<S>, k: Start<S>)
    requires ReadsTame(hw, k.o) && MasksTame(hw, k.o) && DistinctRegs(k.gates)
    requires Closed(k.gates, k.o, k.s0) && Unarmed(k.gates, k.o, k.s0)
    ensures var (w', v) := Chain(hw, k.gates, World(k.s0, {}, []), k.root, 0);
      && Tracked(k, w')
      && (v == Up ==> Sound(k.gates, w') && Stack(w'.trail) == [] && k.root in w'.visited)
  {
    hide Chain, Sound, Stack, Tracked, AtRest, ReadsTame, MasksTame, DistinctRegs, Closed, Unarmed;
    StartTracked(k);
    ChainTracked(hw, k, World(k.s0, {}, []), k.root, 0);
    ChainOrdered(hw, k.gates, World(k.s0, {}, []), k.root, 0);
  }

  /** On every graph, cycles included: a successful walk leaves the requested gate and every real gate above it
      active. */
  lemma SuccessPowersEverything<S(!new)>(hw: Hardware<S>, gates: Gates, o: Observer<S>, s: S, gate: int)
    requires ReadsTame(hw, o) && MasksTame(hw, o) && DistinctRegs(gates) && Closed(gates, o, s) && Unarmed(gates, o, s)
    ensures var (w', v) := Chain(hw, gates, World(s, {}, []), gate, 0); v == Up ==> AllUp(gates, o, w'.s, gate)
  {
    hide Chain, ReadsTame, MasksTame, DistinctRegs, Closed, Unarmed, Tracked, On, Real, IsParent, Ordered, Stack, Done;
    var k := Start(gates, o, s, gate);
    WalkTracked(hw, k);
    var (w', v) := Chain(hw, gates, World(s, {}, []), gate, 0);
    if v == Up {
      forall path | IsPath(gates, path) && path[0] == gate && Real(gates, path[|path| - 1])
        ensures On(gates, o, w'.s, path[|path| - 1])
      {
        AncestorUp(k, w', path, 0);
      }
    }
  }

  lemma EventIsSafe<S>(k: Start<S>, e: Event<S>)
    requires Clear(k) && EventOk(k, e)
    ensures SafeEvent(k.gates, k.o, e)
  {
    hide On, OnCycle, Reaches, ParentsUp, Closed;
  }

  /** If no inactive gate that the walk can reach is above itself, then however the walk ends every state it passes
      through is closed, and at every write all real gates above the written one are active. */
  lemma PowerUpIsSafe<S(!new)>(hw: Hardware<S>, gates: Gates, o: Observer<S>, s: S, gate: int)
    requires ReadsTame(hw, o) && MasksTame(hw, o) && DistinctRegs(gates) && Closed(gates, o, s) && Unarmed(gates, o, s)
    requires NoInactiveCycle(gates, o, s, gate)
    ensures var w' := Chain(hw, gates, World(s, {}, []), gate, 0).0;
      SafeTrail(gates, o, w'.trail) && Closed(gates, o, w'.s)
  {
    hide Chain, ReadsTame, MasksTame, DistinctRegs, Closed, Unarmed, NoInactiveCycle, EventOk, SafeEvent;
    var k := Start(gates, o, s, gate);
    WalkTracked(hw, k);
    var w' := Chain(hw, gates, World(s, {}, []), gate, 0).0;
    forall i | 0 <= i < |w'.trail| ensures SafeEvent(gates, o, w'.trail[i]) { EventIsSafe(k, w'.trail[i]); }
  }

  lemma {:induction false} WrittenSomewhere<S>(trail: seq<Event<S>>, g: int) returns (i: nat)
    requires Writes(trail, g) > 0
    ensures i < |trail| && trail[i].Wrote? && trail[i].gate == g
  {
    var last := trail[|trail| - 1];
    if last.Wrote? && last.gate == g {
      i := |trail| - 1;
    } else {
      i := WrittenSomewhere(trail[..|trail| - 1], g);
    }
  }

  /** A gate above itself has itself among the gates that must be up before it is written. */
  lemma CycleNeedsItself<S>(gates: Gates, o: Observer<S>, s: S, g: int)
    requires OnCycle(gates, g) && ParentsUp(gates, o, s, g) && Real(gates, g)
    ensures On(gates, o, s, g)
  {
    hide On, Real, IsParent;
    var path :| IsPath(gates, path) && |path| >= 2 && path[0] == g && path[|path| - 1] == g;
    assert IsParent(gates, path[1], path[0]);
    PathFrom(gates, path, 1);
    UpAlong(gates, o, s, path[1..]);
  }

  lemma ReachedIsUp<S>(gates: Gates, o: Observer<S>, s: S, root: int, g: int)
    requires AllUp(gates, o, s, root) && Reaches(gates, root, g) && Real(gates, g)
    ensures On(gates, o, s, g)
  {
    hide On, Real, IsPath;
  }

  /** A gate that came up during the walk was written while it was off. */
  lemma CameUpIsWritten<S>(k: Start<S>, w: World<S>, g: int) returns (i: nat)
    requires Tracked(k, w) && On(k.gates, k.o, w.s, g) && !On(k.gates, k.o, k.s0, g)
    ensures i < |w.trail| && w.trail[i].Wrote? && w.trail[i].gate == g && !On(k.gates, k.o, w.trail[i].before, g)
  {
    hide IsActive, Mono, Unvisited, DoneRight, Closed, Clear, Cleared, Writes;
    i := WrittenSomewhere(w.trail, g);
    assert EventOk(k, w.trail[i]);
  }

  /** And the condition is exact: a walk that succeeds has been safe if and only if no inactive gate that it could reach
      was above itself. */
  lemma SuccessIsSafeIff<S(!new)>(hw: Hardware<S>, gates: Gates, o: Observer<S>, s: S, gate: int)
    requires ReadsTame(hw, o) && MasksTame(hw, o) && DistinctRegs(gates) && Closed(gates, o, s) && Unarmed(gates, o, s)
    ensures var (w', v) := Chain(hw, gates, World(s, {}, []), gate, 0);
      v == Up ==> (SafeTrail(gates, o, w'.trail) <==> NoInactiveCycle(gates, o, s, gate))
  {
    hide Chain, ReadsTame, MasksTame, DistinctRegs, Closed, Unarmed, Tracked, On, AllUp, ParentsUp, OnCycle, Reaches, Stack;
    var k := Start(gates, o, s, gate);
    var (w', v) := Chain(hw, gates, World(s, {}, []), gate, 0);
    if NoInactiveCycle(gates, o, s, gate) {
      PowerUpIsSafe(hw, gates, o, s, gate);
    } else if v == Up && SafeTrail(gates, o, w'.trail) {
      WalkTracked(hw, k);
      SuccessPowersEverything(hw, gates, o, s, gate);
      var g :| HasReg(gates, g) && Reaches(gates, gate, g) && OnCycle(gates, g) && !On(gates, o, s, g);
      ReachedIsUp(gates, o, w'.s, gate, g);
      var i := CameUpIsWritten(k, w', g);
      assert SafeEvent(gates, o, w'.trail[i]);
      CycleNeedsItself(gates, o, w'.trail[i].before, g);
      assert false;
    }
  }

  /** A graph without cycles meets the condition from every state. */
  lemma AcyclicIsClear<S>(gates: Gates, o: Observer<S>, rank: int -> nat, s: S, gate: int)
    requires Ranked(gates, rank)
    ensures NoInactiveCycle(gates, o, s, gate)
  {
    hide OnCycle, Reaches, On;
    forall g ensures !OnCycle(gates, g) { RankedHasNoCycle(gates, rank, g); }
  }

  // ------------------------------------------------------------ cycles break it

  /** The active registers, and those ever written. */
  datatype Board = Board(on: set<int>, written: set<int>)

  function Shown(b: Board, a: int): bv32 {
    if a in b.on then PS_ACTUAL_MASK else 0
  }

  /** Hardware at its best: a register is active once written. */
  function IdealHardware(): Hardware<Board> {
    Hardware((b: Board, a: int) => (b, Some(Shown(b, a))),
             (b: Board, a: int, c: bv32, t: bv32) => (Board(b.on + {a}, b.written + {a}), true),
             (b: Board) => 0)
  }

  function IdealObserver(): Observer<Board> {
    Observer((b: Board, a: int) => Shown(b, a), (b: Board, a: int) => a in b.written)
  }

  /** The ideal hardware is tame. */
  lemma IdealIsTame()
    ensures ReadsTame(IdealHardware(), IdealObserver()) && MasksTame(IdealHardware(), IdealObserver())
  {
    hide IsActive;
  }

  /** So on ideal hardware, from any board that is closed and not yet written to. */
  lemma IdealIsSafeIff(gates: Gates, on: set<int>, gate: int)
    requires DistinctRegs(gates) && Closed(gates, IdealObserver(), Board(on, {}))
    ensures var (w', v) := Chain(IdealHardware(), gates, World(Board(on, {}), {}, []), gate, 0);
      v == Up ==> (SafeTrail(gates, IdealObserver(), w'.trail)
                   <==> NoInactiveCycle(gates, IdealObserver(), Board(on, {}), gate))
  {
    IdealIsTame();
    hide Chain, Closed, DistinctRegs, SafeTrail, NoInactiveCycle, ReadsTame, MasksTame;
    SuccessIsSafeIff(IdealHardware(), gates, IdealObserver(), Board(on, {}), gate);
  }

  /** Two real gates, each the other's parent. */
  const CYCLE: Gates := map[1 := Gate(false, Some(1), Some([2])), 2 := Gate(false, Some(2), Some([1]))]

  lemma IdealLoad(w: World<Board>, a: int)
    ensures var (w', r) := Load(IdealHardware(), w, a);
      w' == w.(trail := w.trail + [Now(w.s)]) && r.Some? && IsActive(r.value) == (a in w.s.on)
  {
  }

  lemma IdealPoke(w: World<Board>, gate: int)
    requires gate in CYCLE && gate !in w.s.on
    ensures var next := Board(w.s.on + {gate}, w.s.written + {gate});
      PokeGate(IdealHardware(), CYCLE, w, gate) ==
      (w.(s := next, trail := w.trail + [Now(w.s), Wrote(gate, w.s), Now(next), Now(next)]), Some(true))
  {
    IdealLoad(w, gate);
    hide IsActive, Load;
    var w0 := Load(IdealHardware(), w, gate).0;
    var w1 := Mask(IdealHardware(), w0, gate, gate, CLEAR_1, PS_ACTIVE).0;
    IdealLoad(w1, gate);
    assert PollActive(IdealHardware(), w1, gate, 0) == (Load(IdealHardware(), w1, gate).0, Some(true));
    var next := Board(w.s.on + {gate}, w.s.written + {gate});
    assert w1.trail + [Now(next)] == w.trail + [Now(w.s), Wrote(gate, w.s), Now(next), Now(next)];
  }

  /** A visited gate counts as up even while it is still on the stack, so on a cycle the walk succeeds
      having written gate 2 while its parent, gate 1, was off. */
  lemma CycleWritesBelowAnInactiveParent()
    ensures var (w', v) := Chain(IdealHardware(), CYCLE, World(Board({}, {}), {}, []), 1, 0);
      && v == Up && IsParent(CYCLE, 1, 2)
      && exists i :: 0 <= i < |w'.trail| && w'.trail[i] == Wrote(2, Board({}, {}))
  {
    hide PokeGate, Load, IsActive;
    var hw, a: World<Board> := IdealHardware(), Enter(World(Board({}, {}), {}, []), 1);
    IdealLoad(a, 1);
    var b := Load(hw, a, 1).0;
    assert Peek(hw, a, CYCLE[1]) == (b, false);
    var c := Enter(b, 2);
    IdealLoad(c, 2);
    var d := Load(hw, c, 2).0;
    assert Peek(hw, c, CYCLE[2]) == (d, false);
    assert Parents(hw, CYCLE, d, 2, [1], 1) == (d, Up) by {
      assert Chain(hw, CYCLE, d, 1, 2) == (d, Up);
      assert [1][1..] == [];
    }
    IdealPoke(d, 2);
    var e := PokeGate(hw, CYCLE, d, 2).0;
    assert Chain(hw, CYCLE, b, 2, 1) == (Finish(e, 2), Up);
    var f := Finish(e, 2);
    assert Parents(hw, CYCLE, b, 1, [2], 0) == (f, Up) by {
      assert [2][1..] == [];
    }
    IdealPoke(f, 1);
    var g := PokeGate(hw, CYCLE, f, 1).0;
    assert Chain(hw, CYCLE, World(Board({}, {}), {}, []), 1, 0) == (Finish(g, 1), Up);
    assert Finish(g, 1).trail[|d.trail| + 1] == Wrote(2, Board({}, {}));
  }
}
