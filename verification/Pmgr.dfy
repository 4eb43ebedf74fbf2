/** Parents-first power-up: a depth-first walk over the gate graph that pokes power-state registers. */
module Pmgr {
  import opened Mmio

  // --------------------------------------------------------- graph and hardware

  /** A gate: virtual gates have no register; the device tree may fail to give an address or the parents. */
  datatype Gate = Gate(noPs: bool, psAddr: Option<int>, parents: Option<seq<int>>)

  type Gates = map<int, Gate>

  /** Any hardware: a load may raise, a masked store may raise, and some number of re-reads fits in a poll. */
  datatype Hardware<!S> = Hardware(
    read: (S, int) -> (S, Option<bv32>),
    mask: (S, int, bv32, bv32) -> (S, bool),
    extraReads: S -> nat)

  const PS_TARGET_MASK: bv32 := 0x0000000f
  const PS_ACTUAL_MASK: bv32 := 0x000000f0
  const WAS_PWRGATED: bv32 := 0x00000100
  const WAS_CLKGATED: bv32 := 0x00000200
  const PS_AUTO_MASK: bv32 := 0x0f000000
  const AUTO_ENABLE: bv32 := 0x10000000
  const PS_ACTIVE: bv32 := 0xf
  const MAX_DEPTH := 10

  predicate IsActive(raw: bv32) {
    (raw & PS_ACTUAL_MASK) >> 4 == PS_ACTIVE
  }

  /** The walk's history: gates entered and finished, register writes with the hardware state they
      met, and the hardware state after every access. */
  datatype Event<S> = Entered(gate: int) | Finished(gate: int) | Wrote(gate: int, before: S) | Now(s: S)

  datatype World<S> = World(s: S, visited: set<int>, trail: seq<Event<S>>)

  datatype Reason = DepthLimit | NotFound | NoParents | NotActive

  /** `Escaped`: a poll read raised, which nothing on the way up catches. */
  datatype Verdict = Up | Down(gate: int, why: Reason) | Escaped

  // -------------------------------------------------------------- specification

  function Load<S>(hw: Hardware<S>, w: World<S>, a: int): (World<S>, Option<bv32>) {
    var (s, r) := hw.read(w.s, a);
    (w.(s := s, trail := w.trail + [Now(s)]), r)
  }

  function Mask<S>(hw: Hardware<S>, w: World<S>, gate: int, a: int, clear: bv32, set_: bv32): (World<S>, bool) {
    var (s, ok) := hw.mask(w.s, a, clear, set_);
    (w.(s := s, trail := w.trail + [Wrote(gate, w.s), Now(s)]), ok)
  }

  /** One read and up to `n` re-reads; None if a read raised. */
  function PollActive<S>(hw: Hardware<S>, w: World<S>, a: int, n: nat): (World<S>, Option<bool>)
    decreases n
  {
    var (w', r) := Load(hw, w, a);
    if r.None? then (w', None)
    else if IsActive(r.value) then (w', Some(true))
    else if n == 0 then (w', Some(false))
    else PollActive(hw, w', a, n - 1)
  }

  /** A masked store and the poll behind it. */
  function Raise<S>(hw: Hardware<S>, w: World<S>, gate: int, a: int, clear: bv32, set_: bv32): (World<S>, Option<bool>) {
    var (w', ok) := Mask(hw, w, gate, a, clear, set_);
    if !ok then (w', Some(false)) else PollActive(hw, w', a, hw.extraReads(w'.s))
  }

  const CLEAR_1: bv32 := AUTO_ENABLE | WAS_CLKGATED | WAS_PWRGATED | PS_TARGET_MASK
  const AUTO_ACTIVE: bv32 := 0x0f000000

  /** The two writes; the second is made only when the first was stored and its poll timed out. */
  function PokeRegister<S>(hw: Hardware<S>, w: World<S>, gate: int, a: int): (World<S>, Option<bool>) {
    var (w1, ok) := Mask(hw, w, gate, a, CLEAR_1, PS_ACTIVE);
    if !ok then (w1, Some(false))
    else
      var (w2, up) := PollActive(hw, w1, a, hw.extraReads(w1.s));
      if up != Some(false) then (w2, up) else Raise(hw, w2, gate, a, PS_AUTO_MASK, AUTO_ACTIVE)
  }

  /** Brings one gate to ACTIVE; None if an exception escapes. */
  function PokeGate<S>(hw: Hardware<S>, gates: Gates, w: World<S>, gate: int): (World<S>, Option<bool>) {
    if gate !in gates then (w, Some(false))
    else if gates[gate].noPs then (w, Some(true))
    else if gates[gate].psAddr.None? then (w, Some(false))
    else
      var (w', r) := Load(hw, w, gates[gate].psAddr.value);
      if r.None? then (w', Some(false))
      else if IsActive(r.value) then (w', Some(true))
      else PokeRegister(hw, w', gate, gates[gate].psAddr.value)
  }

  function Enter<S>(w: World<S>, gate: int): World<S> {
    w.(visited := w.visited + {gate}, trail := w.trail + [Entered(gate)])
  }

  function Finish<S>(w: World<S>, gate: int): World<S> {
    w.(trail := w.trail + [Finished(gate)])
  }

  /** The fast path: a readable register that already shows ACTIVE. */
  function Peek<S>(hw: Hardware<S>, w: World<S>, g: Gate): (World<S>, bool) {
    if g.noPs || g.psAddr.None? then (w, false)
    else
      var (w', r) := Load(hw, w, g.psAddr.value);
      (w', r.Some? && IsActive(r.value))
  }

  function Chain<S>(hw: Hardware<S>, gates: Gates, w: World<S>, gate: int, depth: nat): (World<S>, Verdict)
    requires depth <= MAX_DEPTH + 1
    decreases MAX_DEPTH + 1 - depth, 1
  {
    if depth > MAX_DEPTH then (w, Down(gate, DepthLimit))
    else if gate in w.visited then (w, Up)
    else if gate !in gates then (Enter(w, gate), Down(gate, NotFound))
    else
      var (w1, active) := Peek(hw, Enter(w, gate), gates[gate]);
      if active then (Finish(w1, gate), Up)
      else if gates[gate].parents.None? then (w1, Down(gate, NoParents))
      else
        var (w2, v) := Parents(hw, gates, w1, gate, gates[gate].parents.value, depth);
        if v != Up then (w2, v)
        else
          var (w3, ok) := PokeGate(hw, gates, w2, gate);
          if ok == Some(true) then (Finish(w3, gate), Up)
          else (w3, if ok.None? then Escaped else Down(gate, NotActive))
  }

  function Parents<S>(hw: Hardware<S>, gates: Gates, w: World<S>, gate: int, ps: seq<int>, depth: nat): (World<S>, Verdict)
    requires depth <= MAX_DEPTH
    decreases MAX_DEPTH + 1 - depth, 0, |ps|
  {
    if ps == [] then (w, Up)
    else if ps[0] == 0 || ps[0] == gate then Parents(hw, gates, w, gate, ps[1..], depth)
    else
      var (w', v) := Chain(hw, gates, w, ps[0], depth + 1);
      if v != Up then (w', v) else Parents(hw, gates, w', gate, ps[1..], depth)
  }

  // ------------------------------------------------------------------- the walk

  class Poker<S> {
    const hw: Hardware<S>
    const gates: Gates
    var s: S
    var visited: set<int>
    ghost var trail: seq<Event<S>>

    ghost function Here(): World<S>
      reads this
    {
      World(s, visited, trail)
    }

    constructor (hw: Hardware<S>, gates: Gates, s: S)
      ensures this.hw == hw && this.gates == gates && Here() == World(s, {}, [])
    {
      this.hw, this.gates, this.s, visited, trail := hw, gates, s, {}, [];
    }

    method Read32(a: int) returns (r: Option<bv32>)
      modifies this
      ensures (Here(), r) == Load(hw, old(Here()), a)
    {
      var (s', v) := hw.read(s, a);
      s, trail, r := s', trail + [Now(s')], v;
    }

    method Mask32(gate: int, a: int, clear: bv32, set_: bv32) returns (ok: bool)
      modifies this
      ensures (Here(), ok) == Mask(hw, old(Here()), gate, a, clear, set_)
    {
      var (s', stored) := hw.mask(s, a, clear, set_);
      trail := trail + [Wrote(gate, s), Now(s')];
      s, ok := s', stored;
    }

    method PollPsActual(a: int) returns (up: Option<bool>)
      modifies this
      ensures (Here(), up) == PollActive(hw, old(Here()), a, hw.extraReads(old(s)))
    {
      var n := hw.extraReads(s);
      ghost var goal := PollActive(hw, Here(), a, n);
      while true
        invariant goal == PollActive(hw, Here(), a, n)
        decreases n
      {
        var r := Read32(a);
        if r.None? { return None; }
        if IsActive(r.value) { return Some(true); }
        if n == 0 { return Some(false); }
        n := n - 1;
      }
    }

    method DirectPokeGate(gate: int) returns (ok: Option<bool>)
      modifies this
      ensures (Here(), ok) == PokeGate(hw, gates, old(Here()), gate)
    {
      if gate !in gates { return Some(false); }
      if gates[gate].noPs { return Some(true); }
      if gates[gate].psAddr.None? { return Some(false); }
      var a := gates[gate].psAddr.value;
      var raw := Read32(a);
      if raw.None? { return Some(false); }
      if IsActive(raw.value) { return Some(true); }
      var stored := Mask32(gate, a, CLEAR_1, PS_ACTIVE);
      if !stored { return Some(false); }
      ok := PollPsActual(a);
      if ok == Some(false) {
        stored := Mask32(gate, a, PS_AUTO_MASK, AUTO_ACTIVE);
        if !stored { return Some(false); }
        ok := PollPsActual(a);
      }
    }

    method DirectPokeChain(gate: int, depth: nat) returns (v: Verdict)
      requires depth <= MAX_DEPTH + 1
      modifies this
      ensures (Here(), v) == Chain(hw, gates, old(Here()), gate, depth)
      decreases MAX_DEPTH + 1 - depth
    {
      hide PokeGate, Load;
      if depth > MAX_DEPTH { return Down(gate, DepthLimit); }
      if gate in visited { return Up; }
      visited, trail := visited + {gate}, trail + [Entered(gate)];
      if gate !in gates { return Down(gate, NotFound); }
      var g := gates[gate];
      if !g.noPs && g.psAddr.Some? {
        var raw := Read32(g.psAddr.value);
        if raw.Some? && IsActive(raw.value) {
          trail := trail + [Finished(gate)];
          return Up;
        }
      }
      if g.parents.None? { return Down(gate, NoParents); }
      ghost var below := Here();
      var ps := g.parents.value;
      for k := 0 to |ps|
        invariant Parents(hw, gates, below, gate, ps, depth) == Parents(hw, gates, Here(), gate, ps[k..], depth)
      {
        assert ps[k..][1..] == ps[k + 1..];
        if ps[k] == 0 || ps[k] == gate { continue; }
        v := DirectPokeChain(ps[k], depth + 1);
        if v != Up { return; }
      }
      var ok := DirectPokeGate(gate);
      if ok == Some(true) {
        trail := trail + [Finished(gate)];
        return Up;
      }
      v := if ok.None? then Escaped else Down(gate, NotActive);
    }
  }
}
