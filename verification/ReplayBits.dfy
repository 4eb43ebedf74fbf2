/** Bit by bit: what a replay leaves in memory that need not agree with the trace at all. */
module ReplayBits {
  import opened Mmio
  import opened TraceOps
  import opened Replay
  import opened ReplayOutcomes
  import opened ReplayOnAnyDevice
  import opened ReplayOnMemory

  const ALL_BITS: bv64 := 0xffff_ffff_ffff_ffff

  // ----------------------------------------------------- steps as memory patches

  function PatchOf(step: Step): seq<Patch> {
    match step
    case NakedWrite(op, v) => [Patch(op.addr, AccessWidth(op.width), ALL_BITS, v)]
    case Rmw(op, set_, clr, _) => [Patch(op.addr, AccessWidth(op.width), Or(set_, clr), AndNot(set_, clr))]
    case _ => []
  }

  lemma NakedMasked(pre: bv64, v: bv64)
    ensures Masked(pre, ALL_BITS, v) == v
  {
  }

  lemma RmwByte(pre: bv8, set_: bv8, clr: bv8)
    ensures MaskedByte(pre, Or8(set_, clr), AndNot8(set_, clr)) == AndNot8(Or8(pre, set_), clr)
  {
  }

  /** Set then clear is one masked update: the replayer's read-modify-write is a patch. */
  lemma RmwMasked(pre: bv64, set_: bv64, clr: bv64)
    ensures Masked(pre, Or(set_, clr), AndNot(set_, clr)) == RmwValue(pre, set_, clr)
  {
    var u, v := Masked(pre, Or(set_, clr), AndNot(set_, clr)), RmwValue(pre, set_, clr);
    hide ByteAt, Or, AndNot, Or8, AndNot8, MaskedByte, Masked;
    forall k: nat | k < 8 ensures ByteAt(u, k) == ByteAt(v, k) {
      MaskedBytes(pre, Or(set_, clr), AndNot(set_, clr), k);
      OrByte(set_, clr, k);
      AndNotByte(set_, clr, k);
      AndNotByte(Or(pre, set_), clr, k);
      OrByte(pre, set_, k);
      RmwByte(ByteAt(pre, k), ByteAt(set_, k), ByteAt(clr, k));
    }
    BytesDetermine(u, v);
  }

  lemma OnePatch(m: Mem, p: Patch)
    ensures ApplyAll(m, [p]) == Apply(m, p)
  {
    hide Apply;
    assert [p][..0] == [];
  }

  // ---------------------------------------------- the bits a trace line defines

  /** A naked write defines every bit it covers; a write fused with the read before it defines the bits that differ. */
  function DefinedBy(ops: seq<Op>, i: nat, x: int, k: nat): Option<bool>
    requires i < |ops|
  {
    var o := ops[i];
    if !o.kind.W? || !(o.addr <= x < o.addr + AccessWidth(o.width)) then None
    else
      var written := Bit(ByteAt(o.value, x - o.addr), k);
      if Fused(ops, i) && Bit(ByteAt(ops[i - 1].value, x - o.addr), k) == written then None else Some(written)
  }

  lemma AllBitsByte(j: nat, k: nat)
    requires j < 8 && k < 8
    ensures Bit(ByteAt(ALL_BITS, j), k)
  {
    assert ByteAt(ALL_BITS, j) == 0xff;
  }

  lemma OrBit(a: bv64, b: bv64, j: nat, k: nat)
    requires j < 8 && k < 8
    ensures Bit(ByteAt(Or(a, b), j), k) == (Bit(ByteAt(a, j), k) || Bit(ByteAt(b, j), k))
  {
    hide ByteAt, Or, MaskedByte, Bit;
    OrByte(a, b, j);
    MaskedBit(ByteAt(a, j), 0, ByteAt(b, j), k);
    BitZero(k);
  }

  /** The delta patch of a read-write pair touches exactly the bits in which the two differ. */
  lemma WriteTouches(ops: seq<Op>, i: nat, x: int, k: nat)
    requires i < |ops| && ops[i].kind.W? && k < 8
    ensures |PatchOf(WriteStep(ops, i))| == 1
    ensures Touch(PatchOf(WriteStep(ops, i))[0], x, k) == DefinedBy(ops, i, x, k)
  {
    hide ByteAt, AndNot, Or, Bit;
    var o := ops[i];
    if o.addr <= x < o.addr + AccessWidth(o.width) {
      var j := x - o.addr;
      if Fused(ops, i) {
        var r := ops[i - 1].value;
        AndNotBit(o.value, r, j, k);
        AndNotBit(r, o.value, j, k);
        AndNotBit(AndNot(o.value, r), AndNot(r, o.value), j, k);
        OrBit(AndNot(o.value, r), AndNot(r, o.value), j, k);
      } else {
        AllBitsByte(j, k);
      }
    }
  }

  // --------------------------------------------------- a replay on any memory

  /** The pre-read of a fused 4-byte write meets the guard's sentinel, so that the write is skipped. */
  predicate Refused(m: Mem, ops: seq<Op>, i: nat)
    requires i < |ops|
  {
    Fused(ops, i) && ops[i].width == 4 && Mmio.Read(m, ops[i].addr, 4) == GUARD_SENTINEL
  }

  /** The memory after the first `i` trace lines: each write applied as a patch, unless it is refused. */
  function ReplayAt(m0: Mem, ops: seq<Op>, i: nat): Mem
    requires i <= |ops|
  {
    if i == 0 then m0
    else
      var before := ReplayAt(m0, ops, i - 1);
      if ops[i - 1].kind.W? && !Refused(before, ops, i - 1)
      then ApplyAll(before, PatchOf(WriteStep(ops, i - 1)))
      else before
  }

  function CountRefused(m0: Mem, ops: seq<Op>, i: nat): nat
    requires i <= |ops|
  {
    if i == 0 then 0
    else CountRefused(m0, ops, i - 1) + (if Refused(ReplayAt(m0, ops, i - 1), ops, i - 1) then 1 else 0)
  }

  lemma {:induction false} PollKeepsMemory(m: Machine<Mem>, step: Step, n: nat, left: nat, seen: bool)
    requires m.out.Running? && (left > 0 || seen)
    ensures var r := Poll(PlainDevice(n), m, step, left, seen);
      r.s == m.s && r.out.Running? && r.c.faults == m.c.faults
    decreases left
  {
    hide Satisfied, Mmio.Read, AccessWidth;
    if left > 0 { PollKeepsMemory(DoRead(PlainDevice(n), m, step.op).0, step, n, left - 1, true); }
  }

  predicate OnlyReads(steps: seq<Step>) {
    forall k :: 0 <= k < |steps| ==> steps[k].ReadCheck? || steps[k].PollVal? || steps[k].PollMask?
  }

  lemma ReadKeepsMemory(m: Machine<Mem>, step: Step, n: nat)
    requires m.out.Running? && n >= 1 && (step.ReadCheck? || step.PollVal? || step.PollMask?)
    ensures var r := Exec(PlainDevice(n), m, step); r.s == m.s && r.out.Running? && r.c.faults == m.c.faults
  {
    hide Mmio.Read, AccessWidth, Poll;
    if !step.ReadCheck? { PollKeepsMemory(m, step, n, n, false); }
  }

  lemma {:induction false} ReadsKeepMemory(m: Machine<Mem>, steps: seq<Step>, n: nat)
    requires m.out.Running? && n >= 1 && OnlyReads(steps)
    ensures var r := Run(PlainDevice(n), m, steps); r.s == m.s && r.out.Running? && r.c.faults == m.c.faults
  {
    hide Exec, PlainDevice;
    if steps != [] {
      var init := steps[..|steps| - 1];
      ReadsKeepMemory(m, init, n);
      ReadKeepsMemory(Run(PlainDevice(n), m, init), steps[|steps| - 1], n);
    }
  }

  lemma NakedOnMemory(m: Machine<Mem>, step: Step, n: nat)
    requires m.out.Running? && step.NakedWrite?
    ensures var r := Exec(PlainDevice(n), m, step);
      r.out.Running? && r.c.faults == m.c.faults && r.s == ApplyAll(m.s, PatchOf(step))
  {
    hide Mmio.Read, Mmio.Write, AccessWidth, Masked;
    OnePatch(m.s, PatchOf(step)[0]);
    NakedMasked(Mmio.Read(m.s, step.op.addr, AccessWidth(step.op.width)), step.value);
  }

  lemma RmwOnMemory(m: Machine<Mem>, step: Step, n: nat)
    requires m.out.Running? && step.Rmw?
    ensures var r := Exec(PlainDevice(n), m, step);
      && r.out.Running?
      && (if step.op.width == 4 && Mmio.Read(m.s, step.op.addr, 4) == GUARD_SENTINEL
          then r.c.faults == m.c.faults + 1 && r.s == m.s
          else r.c.faults == m.c.faults && r.s == ApplyAll(m.s, PatchOf(step)))
  {
    hide Mmio.Read, Mmio.Write, Or, AndNot, RmwValue, Masked;
    OnePatch(m.s, PatchOf(step)[0]);
    RmwMasked(Mmio.Read(m.s, step.op.addr, AccessWidth(step.op.width)), step.set_, step.clr);
  }

  lemma WriteReplayed(m0: Mem, ops: seq<Op>, i: nat, m: Machine<Mem>, n: nat)
    requires i < |ops| && ops[i].kind.W? && m.out.Running? && m.s == ReplayAt(m0, ops, i)
    ensures var r := Exec(PlainDevice(n), m, WriteStep(ops, i));
      && r.out.Running? && r.s == ReplayAt(m0, ops, i + 1)
      && r.c.faults - m.c.faults == CountRefused(m0, ops, i + 1) - CountRefused(m0, ops, i)
  {
    hide Mmio.Read, AndNot, Exec, PatchOf, PlainDevice, ApplyAll;
    if Fused(ops, i) {
      RmwOnMemory(m, WriteStep(ops, i), n);
    } else {
      NakedOnMemory(m, WriteStep(ops, i), n);
    }
  }

  lemma {:induction false} ReadsReplayed(m0: Mem, ops: seq<Op>, i: nat, j: nat)
    requires i <= j <= |ops| && forall k :: i <= k < j ==> ops[k].kind.R?
    ensures ReplayAt(m0, ops, j) == ReplayAt(m0, ops, i) && CountRefused(m0, ops, j) == CountRefused(m0, ops, i)
    decreases j - i
  {
    hide Mmio.Read, PatchOf, WriteStep;
    if i < j { ReadsReplayed(m0, ops, i, j - 1); }
  }

  lemma ReadStepsAt(ops: seq<Op>, i: nat)
    requires i < |ops| && ops[i].kind.R?
    ensures OnlyReads(StepsAt(ops, i))
  {
    hide AndNot, RunSteps, Order, RunEnd;
    if !AckRead(ops, i) && !HandOff(ops, i) {
      var run := ops[i..RunEnd(ops, i)];
      RunStepsOnlyRead(run, Order(run));
    }
  }

  lemma ChunkReplayed(m0: Mem, ops: seq<Op>, i: nat, m: Machine<Mem>, n: nat)
    requires i < |ops| && n >= 1 && m.out.Running? && m.s == ReplayAt(m0, ops, i)
    ensures var r := Run(PlainDevice(n), m, StepsAt(ops, i));
      && r.out.Running? && r.s == ReplayAt(m0, ops, NextAt(ops, i))
      && r.c.faults - m.c.faults == CountRefused(m0, ops, NextAt(ops, i)) - CountRefused(m0, ops, i)
  {
    if ops[i].kind.W? {
      WriteReplayed(m0, ops, i, m, n);
      OneStep(PlainDevice(n), m, WriteStep(ops, i));
    } else {
      ReadStepsAt(ops, i);
      ReadsKeepMemory(m, StepsAt(ops, i), n);
      NextIsPastReads(ops, i);
      ReadsReplayed(m0, ops, i, NextAt(ops, i));
    }
  }

  lemma {:induction false} PlanReplayed(m0: Mem, ops: seq<Op>, i: nat, m: Machine<Mem>, n: nat)
    requires i <= |ops| && n >= 1 && m.out.Running? && m.s == ReplayAt(m0, ops, i)
    ensures var r := Run(PlainDevice(n), m, PlanFrom(ops, i));
      && r.out.Running? && r.s == ReplayAt(m0, ops, |ops|)
      && r.c.faults - m.c.faults == CountRefused(m0, ops, |ops|) - CountRefused(m0, ops, i)
    decreases |ops| - i
  {
    if i < |ops| {
      var j := NextAt(ops, i);
      ChunkReplayed(m0, ops, i, m, n);
      hide StepsAt, NextAt, ReplayAt, CountRefused, Run;
      var m' := Run(PlainDevice(n), m, StepsAt(ops, i));
      PlanReplayed(m0, ops, j, m', n);
      RunConcat(PlainDevice(n), m, StepsAt(ops, i), PlanFrom(ops, j));
    }
  }

  /** From any memory whatever, the replay runs to its end, leaves the memory of the writes that were not refused, and
      counts the refused ones as faults. */
  lemma ReplayOnAnyMemory(m0: Mem, ops: seq<Op>, n: nat)
    requires n >= 1
    ensures var r := Run(PlainDevice(n), Start(m0), Plan(ops));
      r.out.Running? && r.s == ReplayAt(m0, ops, |ops|) && r.c.faults == CountRefused(m0, ops, |ops|)
  {
    hide PlainDevice, Run, PlanFrom, Mmio.Read;
    PlanReplayed(m0, ops, 0, Start(m0), n);
  }

  // ------------------------------------------------------------ bit by bit

  /** The value given to the bit by the last of the first `n` trace lines that defines it and is not refused. */
  function LastDefined(m0: Mem, ops: seq<Op>, n: nat, x: int, k: nat): Option<bool>
    requires n <= |ops|
  {
    if n == 0 then None
    else if !Refused(ReplayAt(m0, ops, n - 1), ops, n - 1) && DefinedBy(ops, n - 1, x, k).Some?
    then DefinedBy(ops, n - 1, x, k)
    else LastDefined(m0, ops, n - 1, x, k)
  }

  lemma ReadDefinesNothing(ops: seq<Op>, i: nat, x: int, k: nat)
    requires i < |ops| && ops[i].kind.R?
    ensures DefinedBy(ops, i, x, k) == None
  {
  }

  lemma WriteDefines(m: Mem, ops: seq<Op>, i: nat, x: int, k: nat)
    requires i < |ops| && ops[i].kind.W? && k < 8
    ensures Bit(ApplyAll(m, PatchOf(WriteStep(ops, i)))[x], k) == DefinedBy(ops, i, x, k).GetOr(Bit(m[x], k))
  {
    WriteTouches(ops, i, x, k);
    WriteSized(ops, i);
    hide PatchOf, WriteStep, DefinedBy, Bit, ApplyAll, Touch;
    var ps := PatchOf(WriteStep(ops, i));
    LastTouchDecides(m, ps, x, k);
    assert ps[..0] == [];
    assert LastTouch(ps, x, k) == Touch(ps[0], x, k);
  }

  lemma WriteSized(ops: seq<Op>, i: nat)
    requires i < |ops| && ops[i].kind.W?
    ensures Sized(PatchOf(WriteStep(ops, i)))
  {
    hide Or, AndNot;
  }

  lemma {:induction false} BitsReplayed(m0: Mem, ops: seq<Op>, i: nat, x: int, k: nat)
    requires i <= |ops| && k < 8
    ensures Bit(ReplayAt(m0, ops, i)[x], k) == LastDefined(m0, ops, i, x, k).GetOr(Bit(m0[x], k))
  {
    hide PatchOf, WriteStep, DefinedBy, Bit, ApplyAll, Refused;
    if i > 0 {
      BitsReplayed(m0, ops, i - 1, x, k);
      if ops[i - 1].kind.W? {
        WriteDefines(ReplayAt(m0, ops, i - 1), ops, i - 1, x, k);
      } else {
        ReadDefinesNothing(ops, i - 1, x, k);
      }
    }
  }

  /** From any memory whatever: after the replay each bit has the value of the last trace line that defines it and was
      not refused, and a bit no such line defines is as it was. */
  lemma ReplayDefinesBits(m0: Mem, ops: seq<Op>, n: nat, x: int, k: nat)
    requires n >= 1 && k < 8
    ensures var r := Run(PlainDevice(n), Start(m0), Plan(ops));
      r.out.Running? && Bit(r.s[x], k) == LastDefined(m0, ops, |ops|, x, k).GetOr(Bit(m0[x], k))
  {
    hide PlainDevice, Run, PlanFrom, Bit, LastDefined, ReplayAt;
    ReplayOnAnyMemory(m0, ops, n);
    BitsReplayed(m0, ops, |ops|, x, k);
  }

  // ---------------------------------------------------- when nothing is refused

  /** The patches of the writes among the first `n` trace lines. */
  function WritePatches(ops: seq<Op>, n: nat): seq<Patch>
    requires n <= |ops|
  {
    if n == 0 then []
    else WritePatches(ops, n - 1) + (if ops[n - 1].kind.W? then PatchOf(WriteStep(ops, n - 1)) else [])
  }

  /** The memory in front of line `i` if every write before it was made. */
  function AllWritten(m0: Mem, ops: seq<Op>, i: nat): Mem
    requires i <= |ops|
  {
    ApplyAll(m0, WritePatches(ops, i))
  }

  lemma {:induction false} NoneRefused(m0: Mem, ops: seq<Op>, i: nat)
    requires i <= |ops|
    ensures CountRefused(m0, ops, i) == 0 <==> forall k :: 0 <= k < i ==> !Refused(AllWritten(m0, ops, k), ops, k)
    ensures CountRefused(m0, ops, i) == 0 ==> ReplayAt(m0, ops, i) == AllWritten(m0, ops, i)
  {
    hide PatchOf, WriteStep, Refused, AllWritten, Mmio.Read;
    NothingWritten(m0, ops);
    if i > 0 {
      NoneRefused(m0, ops, i - 1);
      OneMoreWritten(m0, ops, i - 1);
    }
  }

  lemma NothingWritten(m0: Mem, ops: seq<Op>)
    ensures AllWritten(m0, ops, 0) == m0
  {
  }

  lemma OneMoreWritten(m0: Mem, ops: seq<Op>, i: nat)
    requires i < |ops|
    ensures AllWritten(m0, ops, i + 1) ==
      if ops[i].kind.W? then ApplyAll(AllWritten(m0, ops, i), PatchOf(WriteStep(ops, i))) else AllWritten(m0, ops, i)
  {
    hide PatchOf, WriteStep;
    if ops[i].kind.W? {
      ApplyAllConcat(m0, WritePatches(ops, i), PatchOf(WriteStep(ops, i)));
    } else {
      assert WritePatches(ops, i) + [] == WritePatches(ops, i);
    }
  }

  /** From any memory, the replay counts no fault exactly when no fused 4-byte write meets the sentinel in the memory
      that the writes before it make of the starting one. */
  lemma FaultFreeIff(m0: Mem, ops: seq<Op>, n: nat)
    requires n >= 1
    ensures Run(PlainDevice(n), Start(m0), Plan(ops)).c.faults == 0
            <==> forall i :: 0 <= i < |ops| ==> !Refused(AllWritten(m0, ops, i), ops, i)
  {
    hide PlainDevice, Run, PlanFrom, Refused, AllWritten, CountRefused, ReplayAt;
    ReplayOnAnyMemory(m0, ops, n);
    NoneRefused(m0, ops, |ops|);
  }

  // ------------------------------------------------------------- the ack polls

  /** The bits a poll waits for: shown by the trace read, not set by the write before it. */
  predicate Gained(read: bv64, written: bv64, j: nat, k: nat) {
    Shows(read, j, k) && !Shows(written, j, k)
  }

  lemma GainedBits(read: bv64, written: bv64, v: bv64)
    ensures NoBits(AndNot(AndNot(read, written), v)) <==>
      forall j: nat, k: nat :: j < 8 && k < 8 && Gained(read, written, j, k) ==> Shows(v, j, k)
  {
    hide ByteAt, Bit, AndNot;
    var gained := AndNot(read, written);
    forall j: nat, k: nat | j < 8 && k < 8
      ensures Shows(AndNot(gained, v), j, k) == (Gained(read, written, j, k) && !Shows(v, j, k))
    {
      AndNotBit(gained, v, j, k);
      AndNotBit(read, written, j, k);
    }
  }

  lemma AckStep(ops: seq<Op>, i: nat)
    requires i < |ops| && AckRead(ops, i)
    ensures StepsAt(ops, i) == [PollMask(ops[i], AndNot(ops[i].value, ops[i - 1].value))]
  {
    hide AndNot;
  }

  /** The poll planned for an acknowledgement waits for exactly the bits the trace read shows and the write before it
      did not set. */
  lemma AckPollWaitsForGainedBits(ops: seq<Op>, i: nat, v: bv64)
    requires i < |ops| && AckRead(ops, i)
    ensures |StepsAt(ops, i)| == 1 && StepsAt(ops, i)[0].PollMask? && StepsAt(ops, i)[0].op == ops[i]
    ensures Satisfied(StepsAt(ops, i)[0], v) <==>
      forall j: nat, k: nat :: j < 8 && k < 8 && Gained(ops[i].value, ops[i - 1].value, j, k) ==> Shows(v, j, k)
  {
    AckStep(ops, i);
    hide StepsAt, AndNot, Satisfied, Gained, Shows, NoBits;
    var gained := AndNot(ops[i].value, ops[i - 1].value);
    SatisfiesMask(ops[i], gained, v);
    GainedBits(ops[i].value, ops[i - 1].value, v);
    ZeroShowsNothing();
    if NoBits(AndNot(gained, v)) { NoBitsIsZero(AndNot(gained, v)); }
  }
}
