/** Where a walk that does not succeed has stopped, and what it has not written. */
module PmgrFailure {
  import opened Mmio
  import opened Pmgr
  import opened PmgrAnyGraph
  import opened PmgrParentsFirst

  /** How the stack has grown when a walk from `gate` stops: by a path of parents from `gate` that ends at the failing
      gate, or just before it when the depth limit refused to enter it. Nothing on it below its top was written since
      `w`, and when it was the depth limit nothing on it at all. */
  ghost predicate StopsAt<S>(gates: Gates, w: World<S>, w': World<S>, v: Verdict, gate: int, grown: seq<int>) {
    && Stack(w'.trail) == Stack(w.trail) + grown
    && (if v.Down? && v.why == DepthLimit
        then IsPath(gates, grown + [v.gate]) && (grown + [v.gate])[0] == gate && Unwritten(w, w', grown)
        else IsPath(gates, grown) && grown[0] == gate && (v.Down? ==> grown[|grown| - 1] == v.gate)
             && Unwritten(w, w', grown[..|grown| - 1]))
  }

  /** Entered for the first time since `w`, and not written. */
  ghost predicate Unwritten<S>(w: World<S>, w': World<S>, gs: seq<int>) {
    forall i :: 0 <= i < |gs| ==> gs[i] !in w.visited && Writes(w'.trail, gs[i]) == Writes(w.trail, gs[i])
  }

  /** The gate was entered, and its own turn failed. */
  lemma StopsHere<S>(gates: Gates, w: World<S>, w': World<S>, v: Verdict, gate: int)
    requires Stack(w'.trail) == Stack(w.trail) + [gate]
    requires v == Escaped || (v.Down? && v.gate == gate && v.why != DepthLimit)
    ensures StopsAt(gates, w, w', v, gate, [gate])
  {
  }

  lemma Extend(gates: Gates, gate: int, path: seq<int>)
    requires IsPath(gates, path) && IsParent(gates, path[0], gate)
    ensures IsPath(gates, [gate] + path)
  {
    hide IsParent;
  }

  /** The gate was entered as `w1`, and the walk below it stopped. */
  lemma StopsBelow<S>(gates: Gates, w: World<S>, w1: World<S>, w': World<S>, v: Verdict, gate: int, p: int, grown: seq<int>)
    requires StopsAt(gates, w1, w', v, p, grown) && IsParent(gates, p, gate)
    requires Stack(w1.trail) == Stack(w.trail) + [gate] && w1.visited == w.visited + {gate} && gate !in w.visited
    requires Bounded(w1, w') && forall g :: Writes(w1.trail, g) == Writes(w.trail, g)
    ensures StopsAt(gates, w, w', v, gate, [gate] + grown)
  {
    hide Stack, Writes, IsParent, IsPath;
    assert Stack(w'.trail) == Stack(w.trail) + ([gate] + grown);
    assert gate in w1.visited;
    if v.Down? && v.why == DepthLimit {
      Extend(gates, gate, grown + [v.gate]);
      assert [gate] + (grown + [v.gate]) == ([gate] + grown) + [v.gate];
    } else {
      NotEmpty(gates, grown);
      Extend(gates, gate, grown);
      assert ([gate] + grown)[..|[gate] + grown| - 1] == [gate] + grown[..|grown| - 1];
    }
  }

  lemma NotEmpty(gates: Gates, path: seq<int>)
    requires IsPath(gates, path)
    ensures path != []
  {
  }

  /** A walk over earlier parents went well before the one that stopped. */
  lemma StopsLater<S>(gates: Gates, w: World<S>, w1: World<S>, w': World<S>, v: Verdict, p: int, grown: seq<int>)
    requires StopsAt(gates, w1, w', v, p, grown)
    requires Stack(w1.trail) == Stack(w.trail) && Bounded(w, w1)
    ensures StopsAt(gates, w, w', v, p, grown)
  {
    hide Stack, Writes, IsPath;
    forall g | g !in w1.visited ensures g !in w.visited && Writes(w1.trail, g) == Writes(w.trail, g) {}
  }

  lemma {:induction false} ChainStops<S>(hw: Hardware<S>, gates: Gates, w: World<S>, gate: int, depth: nat)
    returns (grown: seq<int>)
    requires depth <= MAX_DEPTH + 1 && Sound(gates, w) && Fits(gates, Stack(w.trail), gate)
    requires Chain(hw, gates, w, gate, depth).1 != Up
    ensures var (w', v) := Chain(hw, gates, w, gate, depth); StopsAt(gates, w, w', v, gate, grown)
    decreases MAX_DEPTH + 1 - depth, 1
  {
    hide Peek, PokeGate, Sound, Stack, Done, Writes, Enter, Finish, Parents, StopsAt;
    grown := [];
    if depth > MAX_DEPTH {
      RefusedHere(gates, w, gate);
    } else {
      EnterSound(gates, w, gate);
      EnterAdds(w, gate);
      MarkWritesNothing(w, gate);
      var w0 := Enter(w, gate);
      grown := [gate];
      if gate !in gates {
        StopsHere(gates, w, w0, Down(gate, NotFound), gate);
      } else {
        PeekStill(hw, gates, w0, gates[gate]);
        PeekWritesNothing(hw, w0, gates[gate]);
        var w1 := Peek(hw, w0, gates[gate]).0;
        if gates[gate].parents.None? {
          StopsHere(gates, w, w1, Down(gate, NoParents), gate);
        } else {
          grown := BelowStops(hw, gates, w, w1, gate, depth);
        }
      }
    }
  }

  lemma RefusedHere<S>(gates: Gates, w: World<S>, gate: int)
    ensures StopsAt(gates, w, w, Down(gate, DepthLimit), gate, [])
  {
    assert [] + [gate] == [gate];
  }

  /** The gate is entered and not active: a parent stops the walk, or the gate's own poke does. */
  lemma {:induction false} BelowStops<S>(
      hw: Hardware<S>, gates: Gates, w: World<S>, w1: World<S>, gate: int, depth: nat)
    returns (grown: seq<int>)
    requires depth <= MAX_DEPTH && gate in gates && gates[gate].parents.Some?
    requires Sound(gates, w1) && Stack(w1.trail) == Stack(w.trail) + [gate]
    requires w1.visited == w.visited + {gate} && gate !in w.visited && forall g :: Writes(w1.trail, g) == Writes(w.trail, g)
    ensures var (w2, v) := Parents(hw, gates, w1, gate, gates[gate].parents.value, depth);
      if v != Up then StopsAt(gates, w, w2, v, gate, grown)
      else
        var (w3, ok) := PokeGate(hw, gates, w2, gate);
        ok != Some(true) ==> StopsAt(gates, w, w3, if ok.None? then Escaped else Down(gate, NotActive), gate, grown)
    decreases MAX_DEPTH + 1 - depth, 0, |gates[gate].parents.value| + 1
  {
    hide PokeGate, Sound, Stack, Done, Writes, Parents, StopsAt;
    var ps := gates[gate].parents.value;
    ParentsOrdered(hw, gates, w1, gate, ps, depth);
    ParentsBounded(hw, gates, w1, gate, ps, depth);
    var (w2, v) := Parents(hw, gates, w1, gate, ps, depth);
    if v != Up {
      var p, rest := ParentsStop(hw, gates, w1, gate, ps, depth);
      StopsBelow(gates, w, w1, w2, v, gate, p, rest);
      grown := [gate] + rest;
    } else {
      ParentsKnown(gates, w2, gate, Stack(w.trail));
      PokeStill(hw, gates, w2, gate);
      grown := [gate];
      var (w3, ok) := PokeGate(hw, gates, w2, gate);
      if ok != Some(true) {
        StopsHere(gates, w, w3, if ok.None? then Escaped else Down(gate, NotActive), gate);
      }
    }
  }

  lemma {:induction false} ParentsStop<S>(
      hw: Hardware<S>, gates: Gates, w: World<S>, gate: int, ps: seq<int>, depth: nat)
    returns (p: int, grown: seq<int>)
    requires depth <= MAX_DEPTH && Sound(gates, w)
    requires Stack(w.trail) != [] && Stack(w.trail)[|Stack(w.trail)| - 1] == gate
    requires forall i :: 0 <= i < |ps| && ps[i] != 0 && ps[i] != gate ==> IsParent(gates, ps[i], gate)
    requires Parents(hw, gates, w, gate, ps, depth).1 != Up
    ensures var (w', v) := Parents(hw, gates, w, gate, ps, depth);
      IsParent(gates, p, gate) && StopsAt(gates, w, w', v, p, grown)
    decreases MAX_DEPTH + 1 - depth, 0, |ps|
  {
    hide Chain, Sound, Stack, Writes, IsParent, StopsAt;
    if ps[0] == 0 || ps[0] == gate {
      p, grown := ParentsStop(hw, gates, w, gate, ps[1..], depth);
    } else {
      ChainOrdered(hw, gates, w, ps[0], depth + 1);
      ChainBounded(hw, gates, w, ps[0], depth + 1);
      var (w1, v1) := Chain(hw, gates, w, ps[0], depth + 1);
      if v1 != Up {
        p := ps[0];
        grown := ChainStops(hw, gates, w, ps[0], depth + 1);
      } else {
        p, grown := ParentsStop(hw, gates, w1, gate, ps[1..], depth);
        var (w', v) := Parents(hw, gates, w1, gate, ps[1..], depth);
        StopsLater(gates, w, w1, w', v, p, grown);
      }
    }
  }

  /** Since a start at which nothing had been entered or written, all of the stack is that path. */
  lemma StopsFromNothing<S>(gates: Gates, w: World<S>, w': World<S>, v: Verdict, gate: int, grown: seq<int>)
    requires StopsAt(gates, w, w', v, gate, grown) && w.trail == []
    ensures var stack := Stack(w'.trail);
      && (forall i :: 0 <= i < |stack| - 1 ==> Writes(w'.trail, stack[i]) == 0)
      && (if v.Down? && v.why == DepthLimit
          then IsPath(gates, stack + [v.gate]) && (stack + [v.gate])[0] == gate
               && (forall i :: 0 <= i < |stack| ==> Writes(w'.trail, stack[i]) == 0)
          else IsPath(gates, stack) && stack[0] == gate && (v.Down? ==> stack[|stack| - 1] == v.gate))
  {
    assert Stack(w.trail) == [] && forall g :: Writes(w.trail, g) == 0;
    hide Stack, Writes, IsPath;
    assert Stack(w'.trail) == grown;
  }

  /** Whenever a walk does not succeed, an escaped exception included, its stack is the path of parents from the
      requested gate to the failing one, or to the one before it at the depth limit, and no gate on the stack below its
      top has ever been written; at the depth limit not even the top has. */
  lemma FailureWritesNothingBelow<S>(hw: Hardware<S>, gates: Gates, s: S, gate: int)
    ensures var (w', v) := Chain(hw, gates, World(s, {}, []), gate, 0);
      var stack := Stack(w'.trail);
      v != Up ==>
        && (forall i :: 0 <= i < |stack| - 1 ==> Writes(w'.trail, stack[i]) == 0)
        && (if v.Down? && v.why == DepthLimit
            then IsPath(gates, stack + [v.gate]) && (stack + [v.gate])[0] == gate
                 && (forall i :: 0 <= i < |stack| ==> Writes(w'.trail, stack[i]) == 0)
            else IsPath(gates, stack) && stack[0] == gate && (v.Down? ==> stack[|stack| - 1] == v.gate))
  {
    var w := World(s, {}, []);
    assert Sound(gates, w);
    hide *;
    var (w', v) := Chain(hw, gates, w, gate, 0);
    if v != Up {
      var grown := ChainStops(hw, gates, w, gate, 0);
      StopsFromNothing(gates, w, w', v, gate, grown);
    }
  }
}
