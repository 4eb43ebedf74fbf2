/** What the walk guarantees on every parent graph, cyclic or shared, and on every hardware. */
module PmgrAnyGraph {
  import opened Mmio
  import opened Pmgr

  predicate IsParent(gates: Gates, p: int, gate: int) {
    gate in gates && gates[gate].parents.Some? && p in gates[gate].parents.value && p != 0 && p != gate
  }

  /** Each gate of the path is a parent of the one before. */
  ghost predicate IsPath(gates: Gates, path: seq<int>) {
    path != [] && forall i :: 0 <= i < |path| - 1 ==> IsParent(gates, path[i + 1], path[i])
  }

  /** `b` is `a` itself or a gate above it. */
  ghost predicate Reaches(gates: Gates, a: int, b: int) {
    exists path :: IsPath(gates, path) && path[0] == a && path[|path| - 1] == b
  }

  /** The gate is above itself. */
  ghost predicate OnCycle(gates: Gates, g: int) {
    exists path :: IsPath(gates, path) && |path| >= 2 && path[0] == g && path[|path| - 1] == g
  }

  // ---------------------------------------------------------- counting the writes

  function Writes<S>(trail: seq<Event<S>>, g: int): nat {
    if trail == [] then 0
    else Writes(trail[..|trail| - 1], g) + (if trail[|trail| - 1].Wrote? && trail[|trail| - 1].gate == g then 1 else 0)
  }

  lemma {:induction false} WritesConcat<S>(a: seq<Event<S>>, b: seq<Event<S>>, g: int)
    ensures Writes(a + b, g) == Writes(a, g) + Writes(b, g)
  {
    if b == [] {
      assert a + b == a;
    } else {
      WritesConcat(a, b[..|b| - 1], g);
      assert (a + b)[..|a + b| - 1] == a + b[..|b| - 1];
    }
  }

  /** What a stretch of the walk may do: enter new gates, write each at most twice, touch no gate entered before. */
  ghost predicate Bounded<S>(w: World<S>, w': World<S>) {
    && w.visited <= w'.visited
    && (forall g :: Writes(w'.trail, g) <= Writes(w.trail, g) + (if g in w'.visited - w.visited then 2 else 0))
    && (forall g :: Writes(w.trail, g) <= Writes(w'.trail, g))
  }

  lemma WritesSnoc<S>(trail: seq<Event<S>>, e: Event<S>, g: int)
    ensures Writes(trail + [e], g) == Writes(trail, g) + (if e.Wrote? && e.gate == g then 1 else 0)
  {
    assert (trail + [e])[..|trail|] == trail;
  }

  lemma LoadWritesNothing<S>(hw: Hardware<S>, w: World<S>, a: int)
    ensures var w' := Load(hw, w, a).0;
      w'.visited == w.visited && forall g :: Writes(w'.trail, g) == Writes(w.trail, g)
  {
    var s' := hw.read(w.s, a).0;
    forall g ensures Writes(w.trail + [Now(s')], g) == Writes(w.trail, g) { WritesSnoc(w.trail, Now(s'), g); }
  }

  lemma {:induction false} PollWritesNothing<S>(hw: Hardware<S>, w: World<S>, a: int, n: nat)
    ensures var w' := PollActive(hw, w, a, n).0;
      w'.visited == w.visited && forall g :: Writes(w'.trail, g) == Writes(w.trail, g)
    decreases n
  {
    hide Load, IsActive;
    LoadWritesNothing(hw, w, a);
    if n > 0 { PollWritesNothing(hw, Load(hw, w, a).0, a, n - 1); }
  }

  lemma MaskWritesOnce<S>(hw: Hardware<S>, w: World<S>, gate: int, a: int, clear: bv32, set_: bv32)
    ensures var w' := Mask(hw, w, gate, a, clear, set_).0;
      w'.visited == w.visited && forall g :: Writes(w'.trail, g) == Writes(w.trail, g) + (if g == gate then 1 else 0)
  {
    var s' := hw.mask(w.s, a, clear, set_).0;
    var written := w.trail + [Wrote(gate, w.s)];
    assert w.trail + [Wrote(gate, w.s), Now(s')] == written + [Now(s')];
    forall g ensures Writes(written + [Now(s')], g) == Writes(w.trail, g) + (if g == gate then 1 else 0) {
      WritesSnoc(w.trail, Wrote(gate, w.s), g);
      WritesSnoc(written, Now(s'), g);
    }
  }

  lemma PokeWritesTwice<S>(hw: Hardware<S>, gates: Gates, w: World<S>, gate: int)
    ensures var w' := PokeGate(hw, gates, w, gate).0;
      && w'.visited == w.visited
      && forall g :: Writes(w.trail, g) <= Writes(w'.trail, g) <= Writes(w.trail, g) + (if g == gate then 2 else 0)
  {
    hide Load, IsActive, Mask, PollActive, Writes;
    if gate in gates && !gates[gate].noPs && gates[gate].psAddr.Some? {
      var a := gates[gate].psAddr.value;
      LoadWritesNothing(hw, w, a);
      var w0 := Load(hw, w, a).0;
      MaskWritesOnce(hw, w0, gate, a, CLEAR_1, PS_ACTIVE);
      var w1 := Mask(hw, w0, gate, a, CLEAR_1, PS_ACTIVE).0;
      PollWritesNothing(hw, w1, a, hw.extraReads(w1.s));
      var w2 := PollActive(hw, w1, a, hw.extraReads(w1.s)).0;
      MaskWritesOnce(hw, w2, gate, a, PS_AUTO_MASK, AUTO_ACTIVE);
      var w3 := Mask(hw, w2, gate, a, PS_AUTO_MASK, AUTO_ACTIVE).0;
      PollWritesNothing(hw, w3, a, hw.extraReads(w3.s));
    }
  }

  lemma PeekWritesNothing<S>(hw: Hardware<S>, w: World<S>, g: Gate)
    ensures var w' := Peek(hw, w, g).0;
      w'.visited == w.visited && forall x :: Writes(w'.trail, x) == Writes(w.trail, x)
  {
    if !g.noPs && g.psAddr.Some? { LoadWritesNothing(hw, w, g.psAddr.value); }
  }

  lemma MarkWritesNothing<S>(w: World<S>, gate: int)
    ensures forall x :: Writes(Enter(w, gate).trail, x) == Writes(w.trail, x)
    ensures forall x :: Writes(Finish(w, gate).trail, x) == Writes(w.trail, x)
  {
    forall x
      ensures Writes(w.trail + [Entered(gate)], x) == Writes(w.trail, x) == Writes(w.trail + [Finished(gate)], x)
    {
      WritesSnoc(w.trail, Entered(gate), x);
      WritesSnoc(w.trail, Finished(gate), x);
    }
  }

  lemma {:induction false} ChainBounded<S>(hw: Hardware<S>, gates: Gates, w: World<S>, gate: int, depth: nat)
    requires depth <= MAX_DEPTH + 1
    ensures Bounded(w, Chain(hw, gates, w, gate, depth).0)
    decreases MAX_DEPTH + 1 - depth, 1
  {
    hide Peek, PokeGate, Writes, Enter, Finish;
    MarkWritesNothing(w, gate);
    EnterAdds(w, gate);
    if depth <= MAX_DEPTH && gate !in w.visited && gate in gates {
      PeekWritesNothing(hw, Enter(w, gate), gates[gate]);
      var (w1, active) := Peek(hw, Enter(w, gate), gates[gate]);
      MarkWritesNothing(w1, gate);
      if !active && gates[gate].parents.Some? {
        var ps := gates[gate].parents.value;
        ParentsBounded(hw, gates, w1, gate, ps, depth);
        var w2 := Parents(hw, gates, w1, gate, ps, depth).0;
        PokeWritesTwice(hw, gates, w2, gate);
        MarkWritesNothing(PokeGate(hw, gates, w2, gate).0, gate);
        EnterAdds(PokeGate(hw, gates, w2, gate).0, gate);
      }
      EnterAdds(w1, gate);
    }
  }

  lemma EnterAdds<S>(w: World<S>, gate: int)
    ensures Enter(w, gate).visited == w.visited + {gate} && Finish(w, gate).visited == w.visited
  {
  }

  lemma {:induction false} ParentsBounded<S>(hw: Hardware<S>, gates: Gates, w: World<S>, gate: int, ps: seq<int>, depth: nat)
    requires depth <= MAX_DEPTH
    ensures Bounded(w, Parents(hw, gates, w, gate, ps, depth).0)
    decreases MAX_DEPTH + 1 - depth, 0, |ps|
  {
    hide Chain, Writes;
    if ps != [] {
      if ps[0] == 0 || ps[0] == gate {
        ParentsBounded(hw, gates, w, gate, ps[1..], depth);
      } else {
        ChainBounded(hw, gates, w, ps[0], depth + 1);
        ParentsBounded(hw, gates, Chain(hw, gates, w, ps[0], depth + 1).0, gate, ps[1..], depth);
      }
    }
  }

  /** On any graph and any hardware the walk ends having written no register more than twice. */
  lemma AtMostTwoWrites<S>(hw: Hardware<S>, gates: Gates, s: S, gate: int, g: int)
    ensures Writes(Chain(hw, gates, World(s, {}, []), gate, 0).0.trail, g) <= 2
  {
    hide Chain;
    var w := World(s, {}, []);
    ChainBounded(hw, gates, w, gate, 0);
    assert Writes(w.trail, g) == 0;
  }

  // ------------------------------------------------------------------- failures

  /** A failing walk stops on a path of parents from the requested gate to the failing one, and none of
      the gates on the way down has been written. */
  lemma {:induction false} ChainFails<S>(hw: Hardware<S>, gates: Gates, w: World<S>, gate: int, depth: nat)
    returns (path: seq<int>)
    requires depth <= MAX_DEPTH + 1 && Chain(hw, gates, w, gate, depth).1.Down?
    ensures var (w', v) := Chain(hw, gates, w, gate, depth);
      && IsPath(gates, path) && path[0] == gate && path[|path| - 1] == v.gate && |path| <= 12 - depth
      && (v.why == DepthLimit ==> |path| == 12 - depth)
      && forall i :: 0 <= i < |path| - 1 ==> path[i] !in w.visited && Writes(w'.trail, path[i]) == Writes(w.trail, path[i])
    decreases MAX_DEPTH + 1 - depth, 1
  {
    hide Peek, PokeGate, Writes, Enter, Finish;
    path := [gate];
    if depth <= MAX_DEPTH && gate !in w.visited && gate in gates {
      EnterAdds(w, gate);
      MarkWritesNothing(w, gate);
      PeekWritesNothing(hw, Enter(w, gate), gates[gate]);
      var (w1, active) := Peek(hw, Enter(w, gate), gates[gate]);
      if !active && gates[gate].parents.Some? {
        var ps := gates[gate].parents.value;
        if Parents(hw, gates, w1, gate, ps, depth).1.Down? {
          var below := ParentsFail(hw, gates, w1, gate, ps, depth);
          ParentsBounded(hw, gates, w1, gate, ps, depth);
          path := [gate] + below;
          PathCons(gates, gate, below);
        }
      }
    }
  }

  lemma PathCons(gates: Gates, gate: int, below: seq<int>)
    requires IsPath(gates, below) && IsParent(gates, below[0], gate)
    ensures IsPath(gates, [gate] + below)
  {
  }

  lemma {:induction false} ParentsFail<S>(hw: Hardware<S>, gates: Gates, w: World<S>, gate: int, ps: seq<int>, depth: nat)
    returns (path: seq<int>)
    requires depth <= MAX_DEPTH && Parents(hw, gates, w, gate, ps, depth).1.Down?
    requires forall k :: 0 <= k < |ps| && ps[k] != 0 && ps[k] != gate ==> IsParent(gates, ps[k], gate)
    ensures var (w', v) := Parents(hw, gates, w, gate, ps, depth);
      && IsPath(gates, path) && IsParent(gates, path[0], gate) && path[|path| - 1] == v.gate && |path| <= 11 - depth
      && (v.why == DepthLimit ==> |path| == 11 - depth)
      && forall i :: 0 <= i < |path| - 1 ==> path[i] !in w.visited && Writes(w'.trail, path[i]) == Writes(w.trail, path[i])
    decreases MAX_DEPTH + 1 - depth, 0, |ps|
  {
    hide Chain, Writes, IsParent, IsPath;
    if ps != [] {
      if ps[0] == 0 || ps[0] == gate {
        path := ParentsFail(hw, gates, w, gate, ps[1..], depth);
      } else {
        ChainBounded(hw, gates, w, ps[0], depth + 1);
        var (w', v) := Chain(hw, gates, w, ps[0], depth + 1);
        if v.Down? {
          path := ChainFails(hw, gates, w, ps[0], depth + 1);
        } else {
          path := ParentsFail(hw, gates, w', gate, ps[1..], depth);
        }
      }
    }
  }

  /** If no chain of parents from the requested gate has more than ten edges, the depth limit is never met. */
  lemma DepthLimitUnreachable<S>(hw: Hardware<S>, gates: Gates, s: S, gate: int)
    requires forall path :: IsPath(gates, path) && path[0] == gate ==> |path| <= 11
    ensures var v := Chain(hw, gates, World(s, {}, []), gate, 0).1; !(v.Down? && v.why == DepthLimit)
  {
    hide Chain;
    var v := Chain(hw, gates, World(s, {}, []), gate, 0).1;
    if v.Down? && v.why == DepthLimit {
      var path := ChainFails(hw, gates, World(s, {}, []), gate, 0);
    }
  }
}
