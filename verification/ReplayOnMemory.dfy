/** What a replay does to plain memory. */
module ReplayOnMemory {
  import opened Mmio
  import opened TraceOps
  import opened Replay
  import opened ReplayOnAnyDevice

  /** Plain memory that never raises; `n` reads fit before a poll's deadline. */
  function PlainDevice(n: nat): Device<Mem> {
    Device((m: Mem, a: int, w: nat) => (m, Value(Mmio.Read(m, a, w))),
           (m: Mem, a: int, w: nat, v: bv64) => (Mmio.Write(m, a, w, v), Value(0)),
           (m: Mem) => n)
  }

  lemma {:induction false} RunConcat<S>(dev: Device<S>, m: Machine<S>, s: seq<Step>, t: seq<Step>)
    ensures Run(dev, m, s + t) ==
            if Run(dev, m, s).out.Running? then Run(dev, Run(dev, m, s), t) else Run(dev, m, s)
  {
    hide Exec;
    if t == [] {
      assert s + t == s;
    } else {
      RunConcat(dev, m, s, t[..|t| - 1]);
      assert (s + t)[..|s + t| - 1] == s + t[..|t| - 1];
    }
  }

  // ---------------------------------------------------- the trace run on memory

  /** The memory after the first `i` ops of the trace, each write stored as recorded. */
  function MemAt(m: Mem, ops: seq<Op>, i: nat): Mem
    requires i <= |ops|
  {
    if i == 0 then m
    else
      var before := MemAt(m, ops, i - 1);
      var o := ops[i - 1];
      if o.kind.W? then Mmio.Write(before, o.addr, AccessWidth(o.width), o.value) else before
  }

  /** Every read of the trace shows what the memory holds at that point. */
  ghost predicate Consistent(m: Mem, ops: seq<Op>) {
    forall i :: 0 <= i < |ops| && ops[i].kind.R? ==>
      Mmio.Read(MemAt(m, ops, i), ops[i].addr, AccessWidth(ops[i].width)) == ops[i].value
  }

  /** The read that the write at `i` fuses with looks like a refused load. */
  predicate SentinelAt(ops: seq<Op>, i: nat)
    requires i < |ops|
  {
    Fused(ops, i) && ops[i].width == 4 && ops[i - 1].value == GUARD_SENTINEL
  }

  ghost predicate NoSentinel(ops: seq<Op>) {
    forall i :: 0 <= i < |ops| ==> !SentinelAt(ops, i)
  }

  /** Nothing surprising so far, and every step but a read-modify-write made one access. */
  predicate Clean(m: Machine<Mem>) {
    && m.out.Running?
    && m.c.faults == 0 && m.c.preMismatch == 0 && m.c.readsMismatch == 0 && m.c.pollsTimeout == 0
    && |m.trail| == Tally(m.c) + m.c.rmws
  }

  // ------------------------------------------------------------------- reads

  predicate Quiet(step: Step, mem: Mem) {
    && (step.ReadCheck? || step.PollVal?)
    && Mmio.Read(mem, step.op.addr, AccessWidth(step.op.width)) == (if step.ReadCheck? then step.want else step.target)
  }

  lemma QuietStep(m: Machine<Mem>, step: Step, n: nat)
    requires Clean(m) && Quiet(step, m.s) && n >= 1
    ensures var r := Exec(PlainDevice(n), m, step); Clean(r) && r.s == m.s
  {
    hide Mmio.Read, AccessWidth;
  }

  lemma {:induction false} QuietRun(m: Machine<Mem>, steps: seq<Step>, n: nat)
    requires Clean(m) && n >= 1 && forall k :: 0 <= k < |steps| ==> Quiet(steps[k], m.s)
    ensures var r := Run(PlainDevice(n), m, steps); Clean(r) && r.s == m.s
  {
    if steps != [] {
      hide Clean, Quiet, Exec;
      QuietRun(m, steps[..|steps| - 1], n);
      var before := Run(PlainDevice(n), m, steps[..|steps| - 1]);
      QuietStep(before, steps[|steps| - 1], n);
      StillRunning(before);
    }
  }

  lemma StillRunning(m: Machine<Mem>)
    requires Clean(m)
    ensures m.out.Running?
  {
  }

  /** Regrouping by address is harmless: the memory does not change within a run of reads. */
  lemma {:induction false} RunStepsQuiet(run: seq<Op>, order: seq<int>, mem: Mem)
    requires forall o :: o in run ==> Mmio.Read(mem, o.addr, AccessWidth(o.width)) == o.value
    ensures forall k :: 0 <= k < |RunSteps(run, order)| ==> Quiet(RunSteps(run, order)[k], mem)
  {
    hide Mmio.Read, AccessWidth;
    if order != [] {
      RunStepsQuiet(run, order[..|order| - 1], mem);
      var group := At(run, order[|order| - 1]);
      assert forall k :: 0 <= k < |group| ==> group[k] in group;
    }
  }

  // ---------------------------------------------------- acknowledgements, writes

  lemma ReadBackByte(m: Mem, a: int, w: nat, v: bv64, k: nat)
    requires w <= 8 && k < 8
    ensures ByteAt(Mmio.Read(Mmio.Write(m, a, w, v), a, w), k) == if k < w then ByteAt(v, k) else 0
  {
    hide ByteAt, Mmio.Read;
    BytesOfRead(Mmio.Write(m, a, w, v), a, w, k);
  }

  lemma ReadBack(m: Mem, a: int, w: nat, v: bv64)
    requires w <= 8
    ensures AndNot(Mmio.Read(Mmio.Write(m, a, w, v), a, w), v) == 0
  {
    hide ByteAt, Mmio.Read, Mmio.Write, AndNot8, AndNot;
    var u := Mmio.Read(Mmio.Write(m, a, w, v), a, w);
    forall k: nat | k < 8 ensures ByteAt(AndNot(u, v), k) == ByteAt(0, k) {
      ReadBackByte(m, a, w, v, k);
      AndNotByte(u, v, k);
      ZeroByte(k);
      NothingGained(ByteAt(v, k));
    }
    BytesDetermine(AndNot(u, v), 0);
  }

  lemma NeverAck(m: Mem, ops: seq<Op>, i: nat)
    requires i < |ops| && Consistent(m, ops)
    ensures !AckRead(ops, i)
  {
    if ops[i].kind.R? && i > 0 && ops[i - 1].kind.W? && SamePlace(ops[i - 1], ops[i]) {
      hide Mmio.Read, Mmio.Write, AndNot;
      ReadBack(MemAt(m, ops, i - 1), ops[i].addr, AccessWidth(ops[i].width), ops[i - 1].value);
    }
  }

  lemma WriteOnMemory(m0: Mem, ops: seq<Op>, i: nat, m: Machine<Mem>, n: nat)
    requires i < |ops| && ops[i].kind.W? && Consistent(m0, ops)
    requires Clean(m) && m.s == MemAt(m0, ops, i)
    ensures var r := Exec(PlainDevice(n), m, WriteStep(ops, i));
      if SentinelAt(ops, i) then r.out.Running? && r.c.faults > 0
      else Clean(r) && r.s == MemAt(m0, ops, i + 1)
  {
    hide Mmio.Read, Mmio.Write, AndNot, RmwValue, AccessWidth;
    if Fused(ops, i) {
      assert MemAt(m0, ops, i) == MemAt(m0, ops, i - 1);
      DeltaRestores(ops[i - 1].value, ops[i].value);
    }
  }

  lemma {:induction false} MemAtReads(m0: Mem, ops: seq<Op>, i: nat, j: nat)
    requires i <= j <= |ops| && forall k :: i <= k < j ==> ops[k].kind.R?
    ensures MemAt(m0, ops, j) == MemAt(m0, ops, i)
    decreases j - i
  {
    if i < j {
      MemAtReads(m0, ops, i, j - 1);
    }
  }

  lemma RunReadsHold(m0: Mem, ops: seq<Op>, i: nat, j: nat)
    requires i <= j <= |ops| && Consistent(m0, ops) && forall k :: i <= k < j ==> ops[k].kind.R?
    ensures forall o :: o in ops[i..j] ==>
      Mmio.Read(MemAt(m0, ops, i), o.addr, AccessWidth(o.width)) == o.value
  {
    hide Mmio.Read, AccessWidth, MemAt;
    forall k | i <= k < j
      ensures Mmio.Read(MemAt(m0, ops, i), ops[k].addr, AccessWidth(ops[k].width)) == ops[k].value
    {
      MemAtReads(m0, ops, i, k);
    }
  }

  lemma ReadsOnMemory(m0: Mem, ops: seq<Op>, i: nat, j: nat, m: Machine<Mem>, n: nat)
    requires i <= j <= |ops| && Consistent(m0, ops) && n >= 1 && forall k :: i <= k < j ==> ops[k].kind.R?
    requires Clean(m) && m.s == MemAt(m0, ops, i)
    ensures var r := Run(PlainDevice(n), m, RunSteps(ops[i..j], Order(ops[i..j]))); Clean(r) && r.s == m.s
  {
    hide *;
    RunReadsHold(m0, ops, i, j);
    RunStepsQuiet(ops[i..j], Order(ops[i..j]), m.s);
    QuietRun(m, RunSteps(ops[i..j], Order(ops[i..j])), n);
  }

  lemma RunOnMemory(m0: Mem, ops: seq<Op>, i: nat, m: Machine<Mem>, n: nat)
    requires i < |ops| && ops[i].kind.R? && Consistent(m0, ops) && n >= 1
    requires Clean(m) && m.s == MemAt(m0, ops, i)
    ensures var r := Run(PlainDevice(n), m, StepsAt(ops, i)); Clean(r) && r.s == MemAt(m0, ops, NextAt(ops, i))
    ensures forall k :: 0 <= k < |StepsAt(ops, i)| ==> !StepsAt(ops, i)[k].PollMask?
  {
    hide MemAt, Run, Consistent, RunSteps, Order, Clean, RunEnd, AckRead, HandOff;
    NeverAck(m0, ops, i);
    NextIsPastReads(ops, i);
    MemAtReads(m0, ops, i, NextAt(ops, i));
    if HandOff(ops, i) {
      QuietRun(m, [], n);
    } else {
      var j := RunEnd(ops, i);
      ReadsOnMemory(m0, ops, i, j, m, n);
      RunStepsOnlyRead(ops[i..j], Order(ops[i..j]));
    }
  }

  lemma NextIsPastReads(ops: seq<Op>, i: nat)
    requires i < |ops| && ops[i].kind.R?
    ensures forall k :: i <= k < NextAt(ops, i) ==> ops[k].kind.R?
  {
    hide AckRead, HandOff;
  }

  lemma {:induction false} PlanOnMemory(m0: Mem, ops: seq<Op>, i: nat, m: Machine<Mem>, n: nat)
    requires i <= |ops| && Consistent(m0, ops) && NoSentinel(ops) && n >= 1
    requires Clean(m) && m.s == MemAt(m0, ops, i)
    ensures var r := Run(PlainDevice(n), m, PlanFrom(ops, i)); Clean(r) && r.s == MemAt(m0, ops, |ops|)
    ensures forall k :: 0 <= k < |PlanFrom(ops, i)| ==> !PlanFrom(ops, i)[k].PollMask?
    decreases |ops| - i
  {
    if i < |ops| {
      var j := NextAt(ops, i);
      ChunkOnMemory(m0, ops, i, m, n);
      hide StepsAt, NextAt, Clean, Consistent, NoSentinel, MemAt, Run;
      var m' := Run(PlainDevice(n), m, StepsAt(ops, i));
      StillRunning(m');
      PlanOnMemory(m0, ops, j, m', n);
      RunConcat(PlainDevice(n), m, StepsAt(ops, i), PlanFrom(ops, j));
    }
  }

  lemma ChunkOnMemory(m0: Mem, ops: seq<Op>, i: nat, m: Machine<Mem>, n: nat)
    requires i < |ops| && Consistent(m0, ops) && n >= 1
    requires Clean(m) && m.s == MemAt(m0, ops, i)
    ensures var r := Run(PlainDevice(n), m, StepsAt(ops, i));
      if SentinelAt(ops, i) then r.out.Running? && r.c.faults > 0
      else Clean(r) && r.s == MemAt(m0, ops, NextAt(ops, i))
    ensures forall k :: 0 <= k < |StepsAt(ops, i)| ==> !StepsAt(ops, i)[k].PollMask?
  {
    if ops[i].kind.W? {
      WriteOnMemory(m0, ops, i, m, n);
      StillRunning(m);
      OneStep(PlainDevice(n), m, WriteStep(ops, i));
    } else {
      RunOnMemory(m0, ops, i, m, n);
    }
  }

  lemma OneStep<S>(dev: Device<S>, m: Machine<S>, step: Step)
    requires m.out.Running?
    ensures Run(dev, m, [step]) == Exec(dev, m, step)
  {
    hide Exec;
    assert [step][..0] == [];
  }

  function Start(m: Mem): Machine<Mem> {
    Machine(m, [], ZERO, Running)
  }

  lemma StartIsClean(m: Mem, ops: seq<Op>)
    ensures Clean(Start(m)) && Start(m).s == MemAt(m, ops, 0)
    ensures Start(m).out.Running? && Tally(Start(m).c) == 0
  {
    AtZero(m, ops);
    hide MemAt;
  }

  lemma AtZero(m: Mem, ops: seq<Op>)
    ensures MemAt(m, ops, 0) == m
  {
  }

  /** On memory the trace itself describes, running the plan is running the trace: same final memory,
      every read matches, every poll converges on its first read, and no ack poll is ever planned. */
  lemma PlanMatchesTrace(m0: Mem, ops: seq<Op>, n: nat)
    requires Consistent(m0, ops) && NoSentinel(ops) && n >= 1
    ensures var r := Run(PlainDevice(n), Start(m0), Plan(ops));
      && r.out.Running? && r.s == MemAt(m0, ops, |ops|)
      && r.c.faults == r.c.preMismatch == r.c.readsMismatch == r.c.pollsTimeout == 0
      && Tally(r.c) == |Plan(ops)| && |r.trail| == |Plan(ops)| + r.c.rmws
    ensures forall k :: 0 <= k < |Plan(ops)| ==> !Plan(ops)[k].PollMask?
  {
    hide PlanFrom, PlainDevice, Run, Consistent, NoSentinel, MemAt, Tally, Start;
    StartIsClean(m0, ops);
    PlanOnMemory(m0, ops, 0, Start(m0), n);
    RunAccounts(PlainDevice(n), Start(m0), Plan(ops));
  }

  lemma {:induction false} SentinelFaults(m0: Mem, ops: seq<Op>, i: nat, bad: nat, m: Machine<Mem>, n: nat)
    requires i <= bad < |ops| && Consistent(m0, ops) && SentinelAt(ops, bad) && n >= 1
    requires Clean(m) && m.s == MemAt(m0, ops, i)
    ensures Run(PlainDevice(n), m, PlanFrom(ops, i)).c.faults > 0
    decreases |ops| - i
  {
    var j := NextAt(ops, i);
    ChunkOnMemory(m0, ops, i, m, n);
    NextIsPastWrite(ops, i, bad);
    hide StepsAt, NextAt, Clean, Consistent, SentinelAt, MemAt, Run;
    var m' := Run(PlainDevice(n), m, StepsAt(ops, i));
    RunConcat(PlainDevice(n), m, StepsAt(ops, i), PlanFrom(ops, j));
    if SentinelAt(ops, i) {
      RunAccounts(PlainDevice(n), m', PlanFrom(ops, j));
    } else {
      StillRunning(m');
      SentinelFaults(m0, ops, j, bad, m', n);
    }
  }

  lemma NextIsPastWrite(ops: seq<Op>, i: nat, w: nat)
    requires i <= w < |ops| && SentinelAt(ops, w)
    ensures SentinelAt(ops, i) || NextAt(ops, i) <= w
  {
    hide AckRead, HandOff;
    if i < w && ops[i].kind.R? {
      NextIsPastReads(ops, i);
    }
  }

  /** On such a memory the replay reports a fault exactly when a fused read shows the sentinel. */
  lemma FaultsIffSentinel(m0: Mem, ops: seq<Op>, n: nat)
    requires Consistent(m0, ops) && n >= 1
    ensures Run(PlainDevice(n), Start(m0), Plan(ops)).c.faults == 0 <==> NoSentinel(ops)
  {
    hide PlanFrom, PlainDevice, Run, Consistent, MemAt, Start, SentinelAt, Tally;
    if NoSentinel(ops) {
      PlanMatchesTrace(m0, ops, n);
    } else {
      var bad :| 0 <= bad < |ops| && SentinelAt(ops, bad);
      StartIsClean(m0, ops);
      SentinelFaults(m0, ops, 0, bad, Start(m0), n);
    }
  }
}
