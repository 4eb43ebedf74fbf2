/** Parents first, on every graph: when a register is written, each parent is finished or still on the walk's stack. */
module PmgrParentsFirst {
  import opened Mmio
  import opened Pmgr
  import opened PmgrAnyGraph

  /** The gates entered and not yet finished, innermost last. */
  function Stack<S>(trail: seq<Event<S>>): seq<int> {
    if trail == [] then []
    else
      var below := Stack(trail[..|trail| - 1]);
      match trail[|trail| - 1]
      case Entered(g) => below + [g]
      case Finished(_) => if below == [] then [] else below[..|below| - 1]
      case _ => below
  }

  function Done<S>(trail: seq<Event<S>>): set<int> {
    if trail == [] then {}
    else
      var before := Done(trail[..|trail| - 1]);
      match trail[|trail| - 1]
      case Finished(g) => before + {g}
      case _ => before
  }

  /** A write of `g` is in order after `trail`: the stack is a path of parents with `g` on top, and the
      parents of `g` are finished or on it. */
  ghost predicate WriteInOrder<S>(gates: Gates, trail: seq<Event<S>>, g: int) {
    && IsPath(gates, Stack(trail)) && Stack(trail)[|Stack(trail)| - 1] == g
    && forall p :: IsParent(gates, p, g) ==> p in Done(trail) || p in Stack(trail)
  }

  ghost predicate Ordered<S>(gates: Gates, trail: seq<Event<S>>) {
    trail == [] ||
    (Ordered(gates, trail[..|trail| - 1]) &&
     (trail[|trail| - 1].Wrote? ==> WriteInOrder(gates, trail[..|trail| - 1], trail[|trail| - 1].gate)))
  }

  ghost predicate Settled<S>(w: World<S>) {
    forall g :: g in w.visited ==> g in Done(w.trail) || g in Stack(w.trail)
  }

  /** Each gate on the stack is a parent of the one below it. */
  ghost predicate Stacked(gates: Gates, stack: seq<int>) {
    stack == [] || IsPath(gates, stack)
  }

  /** The gate may go on top of the stack. */
  ghost predicate Fits(gates: Gates, stack: seq<int>, gate: int) {
    stack == [] || IsParent(gates, gate, stack[|stack| - 1])
  }

  ghost predicate Sound<S>(gates: Gates, w: World<S>) {
    Settled(w) && Ordered(gates, w.trail) && Stacked(gates, Stack(w.trail))
  }

  /** The same stack, the same visited gates, the same finished gates. */
  ghost predicate Still<S>(w: World<S>, w': World<S>) {
    w'.visited == w.visited && Stack(w'.trail) == Stack(w.trail) && Done(w'.trail) == Done(w.trail)
  }

  lemma Snoc<S>(trail: seq<Event<S>>, e: Event<S>)
    ensures (trail + [e])[..|trail + [e]| - 1] == trail
  {
  }

  lemma LoadStill<S>(hw: Hardware<S>, gates: Gates, w: World<S>, a: int)
    requires Sound(gates, w)
    ensures Sound(gates, Load(hw, w, a).0) && Still(w, Load(hw, w, a).0)
  {
    Snoc(w.trail, Now(hw.read(w.s, a).0));
  }

  lemma {:induction false} PollStill<S>(hw: Hardware<S>, gates: Gates, w: World<S>, a: int, n: nat)
    requires Sound(gates, w)
    ensures Sound(gates, PollActive(hw, w, a, n).0) && Still(w, PollActive(hw, w, a, n).0)
    decreases n
  {
    hide Load, Sound, IsActive;
    LoadStill(hw, gates, w, a);
    if n > 0 { PollStill(hw, gates, Load(hw, w, a).0, a, n - 1); }
  }

  lemma MaskStill<S>(hw: Hardware<S>, gates: Gates, w: World<S>, gate: int, a: int, clear: bv32, set_: bv32)
    requires Sound(gates, w) && WriteInOrder(gates, w.trail, gate)
    ensures var w' := Mask(hw, w, gate, a, clear, set_).0;
      Sound(gates, w') && Still(w, w') && WriteInOrder(gates, w'.trail, gate)
  {
    hide WriteInOrder;
    var s' := hw.mask(w.s, a, clear, set_).0;
    var written := w.trail + [Wrote(gate, w.s)];
    assert w.trail + [Wrote(gate, w.s), Now(s')] == written + [Now(s')];
    Snoc(w.trail, Wrote(gate, w.s));
    assert Stack(written) == Stack(w.trail) && Done(written) == Done(w.trail) && Ordered(gates, written);
    Snoc(written, Now(s'));
    assert Stack(written + [Now(s')]) == Stack(written) && Done(written + [Now(s')]) == Done(written);
    assert Ordered(gates, written + [Now(s')]);
    OrderKept(gates, w.trail, written + [Now(s')], gate);
  }

  lemma OrderKept<S>(gates: Gates, t: seq<Event<S>>, t': seq<Event<S>>, gate: int)
    requires WriteInOrder(gates, t, gate)
    ensures Stack(t') == Stack(t) && Done(t') == Done(t) ==> WriteInOrder(gates, t', gate)
  {
  }

  lemma PokeStill<S>(hw: Hardware<S>, gates: Gates, w: World<S>, gate: int)
    requires Sound(gates, w) && WriteInOrder(gates, w.trail, gate)
    ensures Sound(gates, PokeGate(hw, gates, w, gate).0) && Still(w, PokeGate(hw, gates, w, gate).0)
  {
    hide Load, IsActive, Mask, PollActive, Sound, WriteInOrder, Stack, Done;
    if gate in gates && !gates[gate].noPs && gates[gate].psAddr.Some? {
      var a := gates[gate].psAddr.value;
      LoadStill(hw, gates, w, a);
      var w0 := Load(hw, w, a).0;
      OrderKept(gates, w.trail, w0.trail, gate);
      MaskStill(hw, gates, w0, gate, a, CLEAR_1, PS_ACTIVE);
      var w1 := Mask(hw, w0, gate, a, CLEAR_1, PS_ACTIVE).0;
      PollStill(hw, gates, w1, a, hw.extraReads(w1.s));
      var w2 := PollActive(hw, w1, a, hw.extraReads(w1.s)).0;
      OrderKept(gates, w1.trail, w2.trail, gate);
      MaskStill(hw, gates, w2, gate, a, PS_AUTO_MASK, AUTO_ACTIVE);
      var w3 := Mask(hw, w2, gate, a, PS_AUTO_MASK, AUTO_ACTIVE).0;
      PollStill(hw, gates, w3, a, hw.extraReads(w3.s));
    }
  }

  lemma PeekStill<S>(hw: Hardware<S>, gates: Gates, w: World<S>, g: Gate)
    requires Sound(gates, w)
    ensures Sound(gates, Peek(hw, w, g).0) && Still(w, Peek(hw, w, g).0)
  {
    hide Load, Sound;
    if !g.noPs && g.psAddr.Some? { LoadStill(hw, gates, w, g.psAddr.value); }
  }

  lemma EnterSound<S>(gates: Gates, w: World<S>, gate: int)
    requires Sound(gates, w) && Fits(gates, Stack(w.trail), gate)
    ensures var w' := Enter(w, gate);
      && Sound(gates, w') && Stack(w'.trail) == Stack(w.trail) + [gate]
      && Done(w'.trail) == Done(w.trail) && w'.visited == w.visited + {gate}
  {
    Snoc(w.trail, Entered(gate));
  }

  lemma FinishSound<S>(gates: Gates, w: World<S>, gate: int, below: seq<int>)
    requires Sound(gates, w) && Stack(w.trail) == below + [gate]
    ensures var w' := Finish(w, gate);
      && Sound(gates, w') && Stack(w'.trail) == below
      && Done(w'.trail) == Done(w.trail) + {gate} && w'.visited == w.visited
  {
    Snoc(w.trail, Finished(gate));
  }

  lemma {:induction false} ChainOrdered<S>(hw: Hardware<S>, gates: Gates, w: World<S>, gate: int, depth: nat)
    requires depth <= MAX_DEPTH + 1 && Sound(gates, w) && Fits(gates, Stack(w.trail), gate)
    ensures var (w', v) := Chain(hw, gates, w, gate, depth);
      && Ordered(gates, w'.trail)
      && (v == Up ==> Sound(gates, w') && Stack(w'.trail) == Stack(w.trail) && gate in w'.visited && w.visited <= w'.visited)
    decreases MAX_DEPTH + 1 - depth, 1
  {
    EnterSound(gates, w, gate);
    JustOrdered(gates, w);
    JustOrdered(gates, Enter(w, gate));
    hide Peek, PokeGate, Sound, Ordered, Stack, Done, Enter, Finish;
    if depth <= MAX_DEPTH && gate !in w.visited && gate in gates {
      PeekStill(hw, gates, Enter(w, gate), gates[gate]);
      var (w1, active) := Peek(hw, Enter(w, gate), gates[gate]);
      JustOrdered(gates, w1);
      if active {
        FinishSound(gates, w1, gate, Stack(w.trail));
        JustOrdered(gates, Finish(w1, gate));
      } else if gates[gate].parents.Some? {
        var ps := gates[gate].parents.value;
        ParentsOrdered(hw, gates, w1, gate, ps, depth);
        var (w2, v) := Parents(hw, gates, w1, gate, ps, depth);
        if v == Up {
          ParentsKnown(gates, w2, gate, Stack(w.trail));
          PokeStill(hw, gates, w2, gate);
          var w3 := PokeGate(hw, gates, w2, gate).0;
          JustOrdered(gates, w3);
          FinishSound(gates, w3, gate, Stack(w.trail));
          JustOrdered(gates, Finish(w3, gate));
        }
      }
    }
  }

  lemma JustOrdered<S>(gates: Gates, w: World<S>)
    ensures Sound(gates, w) ==> Ordered(gates, w.trail)
  {
  }

  /** All parents visited and `gate` on top of the stack: a write of `gate` is in order. */
  lemma ParentsKnown<S>(gates: Gates, w: World<S>, gate: int, below: seq<int>)
    requires Sound(gates, w) && Stack(w.trail) == below + [gate]
    requires forall p :: IsParent(gates, p, gate) ==> p in w.visited
    ensures WriteInOrder(gates, w.trail, gate)
  {
  }

  lemma {:induction false} ParentsOrdered<S>(hw: Hardware<S>, gates: Gates, w: World<S>, gate: int, ps: seq<int>, depth: nat)
    requires depth <= MAX_DEPTH && Sound(gates, w)
    requires Stack(w.trail) != [] && Stack(w.trail)[|Stack(w.trail)| - 1] == gate
    requires forall k :: 0 <= k < |ps| && ps[k] != 0 && ps[k] != gate ==> IsParent(gates, ps[k], gate)
    ensures var (w', v) := Parents(hw, gates, w, gate, ps, depth);
      && Ordered(gates, w'.trail)
      && (v == Up ==> Sound(gates, w') && Stack(w'.trail) == Stack(w.trail) && w.visited <= w'.visited)
      && (v == Up ==> forall p :: p in ps && p != 0 && p != gate ==> p in w'.visited)
    decreases MAX_DEPTH + 1 - depth, 0, |ps|
  {
    JustOrdered(gates, w);
    hide Chain, Sound, Ordered, Stack, IsParent;
    if ps != [] {
      if ps[0] == 0 || ps[0] == gate {
        ParentsOrdered(hw, gates, w, gate, ps[1..], depth);
      } else {
        ChainOrdered(hw, gates, w, ps[0], depth + 1);
        var (w', v) := Chain(hw, gates, w, ps[0], depth + 1);
        if v == Up { ParentsOrdered(hw, gates, w', gate, ps[1..], depth); }
      }
    }
  }

  lemma {:induction false} OrderedAt<S>(gates: Gates, trail: seq<Event<S>>, t: nat)
    requires Ordered(gates, trail) && t < |trail| && trail[t].Wrote?
    ensures WriteInOrder(gates, trail[..t], trail[t].gate)
  {
    hide WriteInOrder;
    if t < |trail| - 1 {
      OrderedAt(gates, trail[..|trail| - 1], t);
      assert trail[..|trail| - 1][..t] == trail[..t];
    }
  }

  /** On any graph and any hardware, however the walk ends: at every register write the written gate is
      on top of the stack and each of its parents has finished or is still on that stack. */
  lemma ParentsFirst<S>(hw: Hardware<S>, gates: Gates, s: S, gate: int, t: nat)
    requires var trail := Chain(hw, gates, World(s, {}, []), gate, 0).0.trail; t < |trail| && trail[t].Wrote?
    ensures var trail := Chain(hw, gates, World(s, {}, []), gate, 0).0.trail;
      WriteInOrder(gates, trail[..t], trail[t].gate)
  {
    var w := World(s, {}, []);
    assert Sound(gates, w) && Stack(w.trail) == [];
    hide Chain, WriteInOrder, Sound, Stack;
    ChainOrdered(hw, gates, w, gate, 0);
    OrderedAt(gates, Chain(hw, gates, w, gate, 0).0.trail, t);
  }

  /** Two paths that meet make one. */
  lemma PathsJoin(gates: Gates, up: seq<int>, on: seq<int>)
    requires IsPath(gates, up) && IsPath(gates, on) && up[|up| - 1] == on[0]
    ensures var all := up + on[1..];
      IsPath(gates, all) && all[0] == up[0] && all[|all| - 1] == on[|on| - 1] && |all| == |up| + |on| - 1
  {
    hide IsParent;
  }

  lemma PathFrom(gates: Gates, path: seq<int>, i: nat)
    requires IsPath(gates, path) && i < |path|
    ensures IsPath(gates, path[i..]) && IsPath(gates, path[..i + 1])
  {
    hide IsParent;
  }

  /** A gate above the top of the stack that is still on the stack puts the top on a cycle. */
  lemma AboveOnStack(gates: Gates, stack: seq<int>, up: seq<int>)
    requires IsPath(gates, stack) && IsPath(gates, up) && |up| >= 2
    requires up[0] == stack[|stack| - 1] && up[|up| - 1] in stack
    ensures OnCycle(gates, up[0])
  {
    hide IsParent;
    var i :| 0 <= i < |stack| && stack[i] == up[|up| - 1];
    PathFrom(gates, stack, i);
    PathsJoin(gates, up, stack[i..]);
  }

  /** A written gate that is not above itself has no parent left on the stack: all its parents have finished, on any
      hardware and however the walk ends. */
  lemma OffCycleParentsFinished<S>(hw: Hardware<S>, gates: Gates, s: S, gate: int, t: nat)
    requires var trail := Chain(hw, gates, World(s, {}, []), gate, 0).0.trail;
      t < |trail| && trail[t].Wrote? && !OnCycle(gates, trail[t].gate)
    ensures var trail := Chain(hw, gates, World(s, {}, []), gate, 0).0.trail;
      forall p :: IsParent(gates, p, trail[t].gate) ==> p in Done(trail[..t])
  {
    hide Chain, Stack, Done, IsParent, OnCycle;
    ParentsFirst(hw, gates, s, gate, t);
    var trail := Chain(hw, gates, World(s, {}, []), gate, 0).0.trail;
    var g := trail[t].gate;
    forall p | IsParent(gates, p, g) ensures p in Done(trail[..t]) {
      if p in Stack(trail[..t]) { AboveOnStack(gates, Stack(trail[..t]), [g, p]); }
    }
  }

  /** Parents rank strictly below: the graph has no cycle. */
  ghost predicate Ranked(gates: Gates, rank: int -> nat) {
    forall p, g :: IsParent(gates, p, g) ==> rank(p) < rank(g)
  }

  lemma {:induction false} RanksFall(gates: Gates, rank: int -> nat, path: seq<int>)
    requires IsPath(gates, path) && Ranked(gates, rank) && |path| >= 2
    ensures rank(path[|path| - 1]) < rank(path[0])
    decreases |path|
  {
    hide IsParent;
    assert IsParent(gates, path[1], path[0]);
    if |path| > 2 {
      PathFrom(gates, path, 1);
      RanksFall(gates, rank, path[1..]);
    }
  }

  /** In a ranked graph no gate is above itself. */
  lemma RankedHasNoCycle(gates: Gates, rank: int -> nat, g: int)
    requires Ranked(gates, rank)
    ensures !OnCycle(gates, g)
  {
    hide IsParent, IsPath;
    if OnCycle(gates, g) {
      var path :| IsPath(gates, path) && |path| >= 2 && path[0] == g && path[|path| - 1] == g;
      RanksFall(gates, rank, path);
    }
  }
}
