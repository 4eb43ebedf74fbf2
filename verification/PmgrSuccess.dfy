/** When the walk succeeds, and what it does with gates that need no poke. */
module PmgrSuccess {
  import opened Mmio
  import opened Pmgr
  import opened PmgrAnyGraph
  import opened PmgrSafety

  // ------------------------------------------------------------- willing hardware

  /** One of the next n + 1 loads shows an active gate, and the loads up to it answer. */
  predicate ShowsActive<S>(hw: Hardware<S>, s: S, a: int, n: nat)
    decreases n
  {
    var (s', r) := hw.read(s, a);
    r.Some? && (IsActive(r.value) || (n > 0 && ShowsActive(hw, s', a, n - 1)))
  }

  /** The state after n + 1 loads. */
  function AfterReads<S>(hw: Hardware<S>, s: S, a: int, n: nat): S
    decreases n
  {
    var s' := hw.read(s, a).0;
    if n == 0 then s' else AfterReads(hw, s', a, n - 1)
  }

  /** What the k-th load of a row of them answers. */
  function LoadAt<S>(hw: Hardware<S>, s: S, a: int, k: nat): Option<bv32>
    decreases k
  {
    var (s', r) := hw.read(s, a);
    if k == 0 then r else LoadAt(hw, s', a, k - 1)
  }

  /** A load that answers without showing ACTIVE in bits 7 to 4. */
  predicate Idles(r: Option<bv32>) {
    r.Some? && r.value & 0xf0 != 0xf0
  }

  /** How a poll with n re-reads ends, by the loads it made: it raises at the first load that raises, succeeds at the first
      that shows ACTIVE, and gives up when all n + 1 loads answered something else. */
  lemma {:induction false} PollEndsAt<S>(hw: Hardware<S>, w: World<S>, a: int, n: nat) returns (k: nat)
    ensures k <= n && PollActive(hw, w, a, n).0.s == AfterReads(hw, w.s, a, k)
    ensures |PollActive(hw, w, a, n).0.trail| == |w.trail| + k + 1
    ensures forall j :: 0 <= j < k ==> Idles(LoadAt(hw, w.s, a, j))
    ensures var last := LoadAt(hw, w.s, a, k);
      match PollActive(hw, w, a, n).1
      case None => last.None?
      case Some(up) => last.Some? && (if up then last.value & 0xf0 == 0xf0 else Idles(last) && k == n)
    decreases n
  {
    var (w', r) := Load(hw, w, a);
    if r.Some? { ActiveMeans(r.value); }
    hide IsActive;
    k := 0;
    if r.Some? && Idles(r) && n > 0 {
      k := PollEndsAt(hw, w', a, n - 1);
      forall j | 0 <= j < k + 1 ensures Idles(LoadAt(hw, w.s, a, j)) {
        if j > 0 { assert LoadAt(hw, w.s, a, j) == LoadAt(hw, w'.s, a, j - 1); }
      }
      k := k + 1;
    }
  }

  /** The gate comes up within the reads of the poll behind the first write, or of the one behind the second. */
  predicate Rises<S>(hw: Hardware<S>, s: S, a: int) {
    var s1 := hw.mask(s, a, CLEAR_1, PS_ACTIVE).0;
    var n := hw.extraReads(s1);
    || ShowsActive(hw, s1, a, n)
    || var s3 := hw.mask(AfterReads(hw, s1, a, n), a, PS_AUTO_MASK, AUTO_ACTIVE).0;
       ShowsActive(hw, s3, a, hw.extraReads(s3))
  }

  /** Loads answer, stores succeed, and a poked gate comes up. */
  ghost predicate Willing<S(!new)>(hw: Hardware<S>) {
    && (forall s: S, a: int :: hw.read(s, a).1.Some?)
    && (forall s: S, a: int, c: bv32, t: bv32 :: hw.mask(s, a, c, t).1)
    && (forall s: S, a: int :: Rises(hw, s, a))
  }

  lemma {:induction false} PollShows<S(!new)>(hw: Hardware<S>, w: World<S>, a: int, n: nat)
    requires forall s: S, b: int :: hw.read(s, b).1.Some?
    ensures var (w', up) := PollActive(hw, w, a, n);
      && up == Some(ShowsActive(hw, w.s, a, n))
      && (up == Some(false) ==> w'.s == AfterReads(hw, w.s, a, n))
    decreases n
  {
    hide IsActive;
    assert hw.read(w.s, a).1.Some?;
    if n > 0 { PollShows(hw, Load(hw, w, a).0, a, n - 1); }
  }

  lemma RegisterRises<S(!new)>(hw: Hardware<S>, w: World<S>, gate: int, a: int)
    requires Willing(hw)
    ensures PokeRegister(hw, w, gate, a).1 == Some(true)
  {
    hide IsActive, PollActive, ShowsActive, AfterReads;
    assert Rises(hw, w.s, a) && hw.mask(w.s, a, CLEAR_1, PS_ACTIVE).1;
    var w1 := Mask(hw, w, gate, a, CLEAR_1, PS_ACTIVE).0;
    var n := hw.extraReads(w1.s);
    PollShows(hw, w1, a, n);
    var (w2, up) := PollActive(hw, w1, a, n);
    if up == Some(false) {
      assert hw.mask(w2.s, a, PS_AUTO_MASK, AUTO_ACTIVE).1;
      var w3 := Mask(hw, w2, gate, a, PS_AUTO_MASK, AUTO_ACTIVE).0;
      PollShows(hw, w3, a, hw.extraReads(w3.s));
    }
  }

  /** Poking a known gate on willing hardware: virtual gates pass, real ones with an address come up. */
  lemma PokeSucceeds<S(!new)>(hw: Hardware<S>, gates: Gates, w: World<S>, gate: int)
    requires Willing(hw) && gate in gates && (gates[gate].noPs || gates[gate].psAddr.Some?)
    ensures PokeGate(hw, gates, w, gate).1 == Some(true)
  {
    hide IsActive, PokeRegister, Rises;
    if !gates[gate].noPs {
      var a := gates[gate].psAddr.value;
      assert hw.read(w.s, a).1.Some?;
      RegisterRises(hw, Load(hw, w, a).0, gate, a);
    }
  }

  // ------------------------------------------------------------- complete graphs

  /** The gate is known, the device tree gives its parents and, unless it is virtual, its register. */
  predicate Described(gates: Gates, g: int) {
    g in gates && gates[g].parents.Some? && (gates[g].noPs || gates[g].psAddr.Some?)
  }

  ghost predicate AllDescribed(gates: Gates, root: int) {
    forall g :: Reaches(gates, root, g) ==> Described(gates, g)
  }

  /** No path of parents from the gate has more than n gates. */
  ghost predicate Shallow(gates: Gates, root: int, n: int) {
    forall path :: IsPath(gates, path) && path[0] == root ==> |path| <= n
  }

  lemma ItselfReached(gates: Gates, g: int)
    ensures Reaches(gates, g, g)
  {
    assert IsPath(gates, [g]) && [g][0] == g;
  }

  lemma ItselfFits(gates: Gates, g: int, n: int)
    requires Shallow(gates, g, n)
    ensures n >= 1
  {
    assert IsPath(gates, [g]) && [g][0] == g;
  }

  lemma ParentsInherit(gates: Gates, gate: int, p: int, n: int)
    requires IsParent(gates, p, gate) && AllDescribed(gates, gate) && Shallow(gates, gate, n)
    ensures AllDescribed(gates, p) && Shallow(gates, p, n - 1)
  {
    hide IsParent, Described;
    forall path | IsPath(gates, path) && path[0] == p
      ensures IsPath(gates, [gate] + path) && |path| <= n - 1
    {
      PathCons(gates, gate, path);
      assert ([gate] + path)[0] == gate;
    }
    forall g | Reaches(gates, p, g) ensures Described(gates, g) {
      var path :| IsPath(gates, path) && path[0] == p && path[|path| - 1] == g;
      var up := [gate] + path;
      assert IsPath(gates, up) && up[0] == gate && up[|up| - 1] == g;
    }
  }

  lemma {:induction false} ChainSucceeds<S(!new)>(hw: Hardware<S>, gates: Gates, w: World<S>, gate: int, depth: nat)
    requires Willing(hw) && depth <= 10 && AllDescribed(gates, gate) && Shallow(gates, gate, 11 - depth)
    ensures Chain(hw, gates, w, gate, depth).1 == Up
    decreases MAX_DEPTH + 1 - depth, 1
  {
    hide Peek, PokeGate, Enter, Finish, Willing, AllDescribed, Shallow, Parents;
    if gate !in w.visited {
      RootDescribed(gates, gate);
      var (w1, active) := Peek(hw, Enter(w, gate), gates[gate]);
      if !active {
        var ps := gates[gate].parents.value;
        ParentsSucceed(hw, gates, w1, gate, ps, depth);
        PokeSucceeds(hw, gates, Parents(hw, gates, w1, gate, ps, depth).0, gate);
      }
    }
  }

  lemma RootDescribed(gates: Gates, g: int)
    requires AllDescribed(gates, g)
    ensures Described(gates, g)
  {
    ItselfReached(gates, g);
  }

  lemma {:induction false} ParentsSucceed<S(!new)>(
      hw: Hardware<S>, gates: Gates, w: World<S>, gate: int, ps: seq<int>, depth: nat)
    requires Willing(hw) && depth <= 10 && AllDescribed(gates, gate) && Shallow(gates, gate, 11 - depth)
    requires forall i :: 0 <= i < |ps| && ps[i] != 0 && ps[i] != gate ==> IsParent(gates, ps[i], gate)
    ensures Parents(hw, gates, w, gate, ps, depth).1 == Up
    decreases MAX_DEPTH + 1 - depth, 0, |ps|
  {
    hide Chain, Willing, AllDescribed, Shallow, IsParent;
    if ps != [] {
      if ps[0] == 0 || ps[0] == gate {
        ParentsSucceed(hw, gates, w, gate, ps[1..], depth);
      } else {
        ParentsInherit(gates, gate, ps[0], 11 - depth);
        ItselfFits(gates, ps[0], 10 - depth);
        ChainSucceeds(hw, gates, w, ps[0], depth + 1);
        ParentsSucceed(hw, gates, Chain(hw, gates, w, ps[0], depth + 1).0, gate, ps[1..], depth);
      }
    }
  }

  /** From any state: on willing hardware, if every gate that the walk can reach is described and no path of parents has
      more than ten edges, the walk succeeds. */
  lemma WalkSucceeds<S(!new)>(hw: Hardware<S>, gates: Gates, s: S, gate: int)
    requires Willing(hw) && AllDescribed(gates, gate) && Shallow(gates, gate, 11)
    ensures Chain(hw, gates, World(s, {}, []), gate, 0).1 == Up
  {
    hide Chain, Willing, AllDescribed, Shallow;
    ChainSucceeds(hw, gates, World(s, {}, []), gate, 0);
  }

  /** The ideal hardware is willing. */
  lemma IdealIsWilling()
    ensures Willing(IdealHardware())
  {
    forall b: Board, a: int ensures Rises(IdealHardware(), b, a) {
      assert IsActive(PS_ACTUAL_MASK);
    }
  }

  // ------------------------------------------------------------- one after the other

  /** A parent is walked to after those listed before it, unless one of them failed; 0 and the gate itself are passed
      over. */
  lemma {:induction false} ParentsInOrder<S>(
      hw: Hardware<S>, gates: Gates, w: World<S>, gate: int, ps: seq<int>, p: int, depth: nat)
    requires depth <= MAX_DEPTH
    ensures var (w', v) := Parents(hw, gates, w, gate, ps, depth);
      Parents(hw, gates, w, gate, ps + [p], depth) ==
      if v != Up then (w', v) else if p == 0 || p == gate then (w', Up) else Chain(hw, gates, w', p, depth + 1)
    decreases |ps|
  {
    hide Chain;
    if ps != [] {
      assert (ps + [p])[1..] == ps[1..] + [p];
      var w' := if ps[0] == 0 || ps[0] == gate then w else Chain(hw, gates, w, ps[0], depth + 1).0;
      ParentsInOrder(hw, gates, w', gate, ps[1..], p, depth);
    } else {
      assert ([p])[1..] == [];
    }
  }

  // ------------------------------------------------------------- gates left alone

  /** A gate that already shows ACTIVE costs one load: no parent is looked at and nothing is written. */
  lemma ActiveGateIsLeftAlone<S>(hw: Hardware<S>, gates: Gates, w: World<S>, gate: int, depth: nat)
    requires depth <= 10 && gate !in w.visited && Described(gates, gate) && !gates[gate].noPs
    requires var r := hw.read(w.s, gates[gate].psAddr.value).1; r.Some? && r.value & 0xf0 == 0xf0
    ensures var s' := hw.read(w.s, gates[gate].psAddr.value).0;
      Chain(hw, gates, w, gate, depth) ==
      (World(s', w.visited + {gate}, w.trail + [Entered(gate)] + [Now(s')] + [Finished(gate)]), Up)
  {
    ActiveMeans(hw.read(w.s, gates[gate].psAddr.value).1.value);
    hide IsActive;
  }

  /** The actual state is ACTIVE when all four of its bits are set. */
  lemma ActiveMeans(v: bv32)
    ensures IsActive(v) <==> v & 0xf0 == 0xf0
  {
  }

  /** How a single poke ends without a write. */
  lemma PokeWithoutWrite<S>(hw: Hardware<S>, gates: Gates, w: World<S>, gate: int)
    ensures gate !in gates ==> PokeGate(hw, gates, w, gate) == (w, Some(false))
    ensures gate in gates && gates[gate].noPs ==> PokeGate(hw, gates, w, gate) == (w, Some(true))
    ensures gate in gates && !gates[gate].noPs && gates[gate].psAddr.None? ==>
      PokeGate(hw, gates, w, gate) == (w, Some(false))
    ensures gate in gates && !gates[gate].noPs && gates[gate].psAddr.Some? ==>
      var (s', r) := hw.read(w.s, gates[gate].psAddr.value);
      (r.None? || r.value & 0xf0 == 0xf0 ==>
        PokeGate(hw, gates, w, gate) == (World(s', w.visited, w.trail + [Now(s')]), Some(r.Some?)))
  {
    if gate in gates && !gates[gate].noPs && gates[gate].psAddr.Some? {
      var r := hw.read(w.s, gates[gate].psAddr.value).1;
      if r.Some? { ActiveMeans(r.value); }
    }
    hide IsActive;
  }
}
