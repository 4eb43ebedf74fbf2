/** What the two register writes of a poke ask of a gate, on registers that do as they are told. */
module PmgrRegister {
  import opened Mmio
  import opened Pmgr
  import opened PmgrAnyGraph

  /** The actual state takes over the target state. */
  function Follow(v: bv32): bv32 {
    (v & !PS_ACTUAL_MASK) | ((v & PS_TARGET_MASK) << 4)
  }

  function Stored(v: bv32, clear: bv32, set_: bv32): bv32 {
    (v & !clear) | set_
  }

  /** A single register; `settle` is what it does after a masked store. Every poll makes n + 1 reads at most. */
  function Register(settle: bv32 -> bv32, n: nat): Hardware<bv32> {
    Hardware((v: bv32, a: int) => (v, Some(v)),
             (v: bv32, a: int, c: bv32, t: bv32) => (settle(Stored(v, c, t)), true),
             (v: bv32) => n)
  }

  /** A block that does not rise above its automatic floor. */
  function Floored(v: bv32): bv32 {
    if v & PS_AUTO_MASK == PS_AUTO_MASK then Follow(v) else v
  }

  const STICKY: bv32 := WAS_CLKGATED | WAS_PWRGATED

  /** The target is ACTIVE, the automatic mode is off and the sticky flags are cleared. */
  predicate Requested(v: bv32) {
    v & PS_TARGET_MASK == PS_ACTIVE && v & AUTO_ENABLE == 0 && v & STICKY == 0
  }

  predicate LowFloor(v: bv32) {
    v & PS_AUTO_MASK != PS_AUTO_MASK
  }

  /** The bits a poke has no business with are as they were. */
  predicate OthersKept(v: bv32, w: bv32) {
    var others := !(PS_TARGET_MASK | PS_ACTUAL_MASK | STICKY | PS_AUTO_MASK | AUTO_ENABLE);
    v & others == w & others
  }

  predicate FloorKept(v: bv32, w: bv32) {
    v & PS_AUTO_MASK == w & PS_AUTO_MASK
  }

  lemma FirstWrite(v: bv32)
    ensures var w := Follow(Stored(v, CLEAR_1, PS_ACTIVE));
      Requested(w) && IsActive(w) && OthersKept(v, w) && FloorKept(v, w)
  {
  }

  lemma FirstWriteHeld(v: bv32)
    requires !IsActive(v) && LowFloor(v)
    ensures var w := Floored(Stored(v, CLEAR_1, PS_ACTIVE)); !IsActive(w) && OthersKept(v, w) && Requested(w)
  {
  }

  lemma SecondWrite(v: bv32, w: bv32)
    requires Requested(w) && OthersKept(v, w)
    ensures var x := Floored(Stored(w, PS_AUTO_MASK, AUTO_ACTIVE)); Requested(x) && IsActive(x) && OthersKept(v, x)
  {
  }

  lemma OneRead(settle: bv32 -> bv32, n: nat, w: World<bv32>, a: int, left: nat)
    requires IsActive(w.s)
    ensures PollActive(Register(settle, n), w, a, left) == (w.(trail := w.trail + [Now(w.s)]), Some(true))
  {
  }

  lemma {:induction false} AllReads(settle: bv32 -> bv32, n: nat, w: World<bv32>, a: int, left: nat)
    requires !IsActive(w.s)
    ensures var (w', up) := PollActive(Register(settle, n), w, a, left); w'.s == w.s && up == Some(false)
    decreases left
  {
    hide IsActive;
    if left > 0 { AllReads(settle, n, w.(trail := w.trail + [Now(w.s)]), a, left - 1); }
  }

  /** An obedient gate comes up with one write; only the fields the poke is about change. */
  lemma ObedientGateComesUp(gates: Gates, w: World<bv32>, gate: int, n: nat)
    requires gate in gates && !gates[gate].noPs && gates[gate].psAddr.Some? && !IsActive(w.s)
    ensures var (w', up) := PokeGate(Register(Follow, n), gates, w, gate);
      && up == Some(true) && Requested(w'.s) && IsActive(w'.s)
      && OthersKept(w.s, w'.s) && FloorKept(w.s, w'.s)
      && Writes(w'.trail, gate) == Writes(w.trail, gate) + 1
  {
    hide IsActive, Follow, Requested, OthersKept, FloorKept, PollActive, Writes, Stored;
    var hw, a := Register(Follow, n), gates[gate].psAddr.value;
    var w0 := Load(hw, w, a).0;
    var w1 := Mask(hw, w0, gate, a, CLEAR_1, PS_ACTIVE).0;
    FirstWrite(w.s);
    OneRead(Follow, n, w1, a, n);
    LoadWritesNothing(hw, w, a);
    MaskWritesOnce(hw, w0, gate, a, CLEAR_1, PS_ACTIVE);
    PollWritesNothing(hw, w1, a, n);
  }

  /** A gate held down by a low automatic floor comes up with the second write, and not before. */
  lemma FlooredGateNeedsTheSecondWrite(gates: Gates, w: World<bv32>, gate: int, n: nat)
    requires gate in gates && !gates[gate].noPs && gates[gate].psAddr.Some?
    requires !IsActive(w.s) && LowFloor(w.s)
    ensures var (w', up) := PokeGate(Register(Floored, n), gates, w, gate);
      && up == Some(true) && Requested(w'.s) && IsActive(w'.s) && OthersKept(w.s, w'.s)
      && Writes(w'.trail, gate) == Writes(w.trail, gate) + 2
  {
    hide IsActive, Floored, Requested, OthersKept, LowFloor, PollActive, Writes, Stored;
    var hw, a := Register(Floored, n), gates[gate].psAddr.value;
    var w0 := Load(hw, w, a).0;
    var w1 := Mask(hw, w0, gate, a, CLEAR_1, PS_ACTIVE).0;
    FirstWriteHeld(w.s);
    AllReads(Floored, n, w1, a, n);
    var w2 := PollActive(hw, w1, a, n).0;
    var w3 := Mask(hw, w2, gate, a, PS_AUTO_MASK, AUTO_ACTIVE).0;
    SecondWrite(w.s, w2.s);
    OneRead(Floored, n, w3, a, n);
    LoadWritesNothing(hw, w, a);
    MaskWritesOnce(hw, w0, gate, a, CLEAR_1, PS_ACTIVE);
    PollWritesNothing(hw, w1, a, n);
    MaskWritesOnce(hw, w2, gate, a, PS_AUTO_MASK, AUTO_ACTIVE);
    PollWritesNothing(hw, w3, a, n);
  }
}
