/** What a replay guarantees against a device that may answer anything at any time. */
module ReplayOnAnyDevice {
  import opened Mmio
  import opened TraceOps
  import opened Replay
  import opened ReplayOutcomes

  // ------------------------------------------------------------------ accounting

  function Tally(c: Counters): nat {
    c.writes + c.rmws + c.readsMatch + c.readsMismatch + c.pollsOk + c.pollsTimeout + c.faults
  }

  ghost predicate Grows(c: Counters, c': Counters) {
    && c.writes <= c'.writes && c.rmws <= c'.rmws && c.readsMatch <= c'.readsMatch
    && c.readsMismatch <= c'.readsMismatch && c.pollsOk <= c'.pollsOk && c.pollsTimeout <= c'.pollsTimeout
    && c.preMismatch <= c'.preMismatch && c.faults <= c'.faults
  }

  /** Every access of `more` is a load of the step's register that answered; the last shows what the poll waits for, the
      others do not. */
  ghost predicate EndsMet(more: seq<Access>, step: Step) {
    && more != [] && AllAtRegister(more, step.op) && Unmet(more[..|more| - 1], step)
    && Answered(more[|more| - 1]) && Meets(step, more[|more| - 1].answer.v)
  }

  lemma {:induction false} PollAccounts<S>(dev: Device<S>, m: Machine<S>, step: Step, n: nat, seen: bool)
    requires m.out.Running?
    ensures var r := Poll(dev, m, step, n, seen);
      && Grows(m.c, r.c) && r.c.preMismatch == m.c.preMismatch
      && Tally(r.c) == Tally(m.c) + (if r.out.Running? then 1 else 0)
    decreases n
  {
    hide Satisfied, AccessWidth;
    if n > 0 {
      var m' := DoRead(dev, m, step.op).0;
      if m'.out.Running? {
        PollAccounts(dev, m', step, n - 1, true);
      }
    }
  }

  lemma ExecAccounts<S>(dev: Device<S>, m: Machine<S>, step: Step)
    requires m.out.Running?
    ensures var r := Exec(dev, m, step);
      && Grows(m.c, r.c)
      && Tally(r.c) == Tally(m.c) + (if r.out.Running? then 1 else 0)
      && (r.out.Running? ==> r.c.preMismatch - m.c.preMismatch <= r.c.rmws - m.c.rmws)
  {
    hide RmwValue, AccessWidth, Poll;
    if step.PollMask? || step.PollVal? {
      PollAccounts(dev, m, step, dev.pollReads(m.s), false);
    }
  }

  lemma ExecConverges<S>(dev: Device<S>, m: Machine<S>, step: Step) returns (more: seq<Access>)
    requires m.out.Running? && Exec(dev, m, step).c.pollsOk > m.c.pollsOk
    ensures step.PollMask? || step.PollVal?
    ensures Exec(dev, m, step).trail == m.trail + more && EndsMet(more, step)
  {
    hide Exec, Meets, AtRegister, AndNot, Or;
    if step.NakedWrite? {
      var x := WriteOutcome(dev, m, step);
    } else if step.ReadCheck? {
      var x := ReadOutcome(dev, m, step);
    } else if step.Rmw? {
      more := RmwOutcome(dev, m, step);
    } else {
      more := PollOutcome(dev, m, step);
    }
  }

  /** An unended replay of n steps counts n outcomes, however the device behaved, and never more
      pre-value surprises than read-modify-writes. */
  lemma {:induction false} RunAccounts<S>(dev: Device<S>, m: Machine<S>, steps: seq<Step>)
    requires m.out.Running?
    ensures var r := Run(dev, m, steps);
      && Grows(m.c, r.c)
      && (r.out.Running? ==> Tally(r.c) == Tally(m.c) + |steps|)
      && (r.out.Running? ==> r.c.preMismatch - m.c.preMismatch <= r.c.rmws - m.c.rmws)
  {
    hide Exec, Tally;
    if steps != [] {
      var before := Run(dev, m, steps[..|steps| - 1]);
      RunAccounts(dev, m, steps[..|steps| - 1]);
      if before.out.Running? {
        ExecAccounts(dev, before, steps[|steps| - 1]);
      }
    }
  }

  /** Every poll counted as converged made loads of its register that answered, of which the last, and only the last,
      shows every bit of the mask, or is the target value. */
  lemma CountedPollsConverged<S>(dev: Device<S>, m: Machine<S>, steps: seq<Step>, k: nat)
    requires m.out.Running? && k < |steps|
    ensures var before, after := Run(dev, m, steps[..k]), Run(dev, m, steps[..k + 1]);
      after.c.pollsOk > before.c.pollsOk ==>
        && (steps[k].PollMask? || steps[k].PollVal?)
        && exists more :: after.trail == before.trail + more && EndsMet(more, steps[k])
  {
    hide Exec, EndsMet;
    assert steps[..k + 1][..k] == steps[..k];
    var before := Run(dev, m, steps[..k]);
    if before.out.Running? && Exec(dev, before, steps[k]).c.pollsOk > before.c.pollsOk {
      var more := ExecConverges(dev, before, steps[k]);
    }
  }

  // ------------------------------------------------------------- faithful writes

  /** A write as it was issued, whatever came of it. */
  datatype Issued = Issued(addr: int, width: nat, value: bv64)

  function Stores(trail: seq<Access>): seq<Issued> {
    if trail == [] then []
    else
      var x := trail[|trail| - 1];
      Stores(trail[..|trail| - 1]) + (if x.Stored? then [Issued(x.addr, x.width, x.value)] else [])
  }

  /** The writes of a trace. */
  function TraceWrites(ops: seq<Op>): seq<Issued> {
    if ops == [] then []
    else
      var o := ops[|ops| - 1];
      TraceWrites(ops[..|ops| - 1]) + (if o.kind.W? then [Issued(o.addr, AccessWidth(o.width), o.value)] else [])
  }

  /** What a step stores when the live register held what the trace read. */
  function Intended(step: Step): seq<Issued> {
    match step
    case NakedWrite(op, v) => [Issued(op.addr, AccessWidth(op.width), v)]
    case Rmw(op, set_, clr, Some(pre)) => [Issued(op.addr, AccessWidth(op.width), RmwValue(pre, set_, clr))]
    case _ => []
  }

  function AllIntended(steps: seq<Step>): seq<Issued> {
    if steps == [] then [] else AllIntended(steps[..|steps| - 1]) + Intended(steps[|steps| - 1])
  }

  lemma StoresSnoc(trail: seq<Access>, a: Access)
    ensures Stores(trail + [a]) == Stores(trail) + (if a.Stored? then [Issued(a.addr, a.width, a.value)] else [])
  {
    assert (trail + [a])[..|trail|] == trail;
  }

  lemma {:induction false} PollStoresNothing<S>(dev: Device<S>, m: Machine<S>, step: Step, n: nat, seen: bool)
    ensures Stores(Poll(dev, m, step, n, seen).trail) == Stores(m.trail)
    decreases n
  {
    hide Satisfied, Stores;
    if n > 0 {
      var (m', v) := DoRead(dev, m, step.op);
      StoresSnoc(m.trail, Loaded(step.op.addr, AccessWidth(step.op.width), dev.read(m.s, step.op.addr, AccessWidth(step.op.width)).1));
      PollStoresNothing(dev, m', step, n - 1, true);
    }
  }

  ghost predicate HasPreValue(step: Step) {
    step.Rmw? ==> step.expPre.Some?
  }

  ghost predicate AllHavePreValue(steps: seq<Step>) {
    forall k :: 0 <= k < |steps| ==> HasPreValue(steps[k])
  }

  lemma ExecStores<S>(dev: Device<S>, m: Machine<S>, step: Step)
    requires m.out.Running? && HasPreValue(step)
    ensures var r := Exec(dev, m, step);
      r.out.Running? && r.c.faults == m.c.faults && r.c.preMismatch == m.c.preMismatch ==>
        Stores(r.trail) == Stores(m.trail) + Intended(step)
  {
    hide Satisfied, RmwValue, Stores, AccessWidth;
    var w := AccessWidth(step.op.width);
    var (s, a) := dev.read(m.s, step.op.addr, w);
    StoresSnoc(m.trail, Loaded(step.op.addr, w, a));
    match step
    case NakedWrite(op, v) =>
      StoresSnoc(m.trail, Stored(op.addr, w, v, dev.write(m.s, op.addr, w, v).1));
    case Rmw(op, set_, clr, pre) =>
      var loaded := m.trail + [Loaded(op.addr, w, a)];
      var v := RmwValue(pre.value, set_, clr);
      StoresSnoc(loaded, Stored(op.addr, w, v, dev.write(s, op.addr, w, v).1));
    case ReadCheck(_, _) =>
    case _ =>
      PollStoresNothing(dev, m, step, dev.pollReads(m.s), false);
  }

  lemma {:induction false} RunStores<S>(dev: Device<S>, m: Machine<S>, steps: seq<Step>)
    requires m.out.Running? && AllHavePreValue(steps)
    ensures var r := Run(dev, m, steps);
      r.out.Running? && r.c.faults == m.c.faults && r.c.preMismatch == m.c.preMismatch ==>
        Stores(r.trail) == Stores(m.trail) + AllIntended(steps)
  {
    hide Exec, Intended, Stores, Tally;
    if steps != [] {
      var init := steps[..|steps| - 1];
      var before := Run(dev, m, init);
      RunAccounts(dev, m, init);
      RunStores(dev, m, init);
      if before.out.Running? {
        ExecAccounts(dev, before, steps[|steps| - 1]);
        ExecStores(dev, before, steps[|steps| - 1]);
      }
    }
  }

  lemma DeltaRestores(r: bv64, w: bv64)
    ensures RmwValue(r, AndNot(w, r), AndNot(r, w)) == w
  {
    hide Or, AndNot;
    GainBits(r, w);
    DropBits(r, w);
  }

  lemma {:induction false} IntendedConcat(s: seq<Step>, t: seq<Step>)
    ensures AllIntended(s + t) == AllIntended(s) + AllIntended(t)
  {
    hide Intended;
    if t == [] {
      assert s + t == s;
    } else {
      IntendedConcat(s, t[..|t| - 1]);
      assert (s + t)[..|s + t| - 1] == s + t[..|t| - 1];
    }
  }

  lemma {:induction false} ReadsIntendNothing(steps: seq<Step>)
    requires forall k :: 0 <= k < |steps| ==> steps[k].ReadCheck? || steps[k].PollVal?
    ensures AllIntended(steps) == []
  {
    if steps != [] { ReadsIntendNothing(steps[..|steps| - 1]); }
  }

  lemma {:induction false} TraceWritesConcat(a: seq<Op>, b: seq<Op>)
    ensures TraceWrites(a + b) == TraceWrites(a) + TraceWrites(b)
  {
    hide AccessWidth;
    if b == [] {
      assert a + b == a;
    } else {
      TraceWritesConcat(a, b[..|b| - 1]);
      assert (a + b)[..|a + b| - 1] == a + b[..|b| - 1];
    }
  }

  lemma {:induction false} ReadsWriteNothing(ops: seq<Op>)
    requires forall k :: 0 <= k < |ops| ==> ops[k].kind.R?
    ensures TraceWrites(ops) == []
  {
    if ops != [] { ReadsWriteNothing(ops[..|ops| - 1]); }
  }

  lemma StepsAtIntend(ops: seq<Op>, i: nat)
    requires i < |ops|
    ensures AllIntended(StepsAt(ops, i)) == TraceWrites(ops[i..NextAt(ops, i)])
    ensures AllHavePreValue(StepsAt(ops, i))
  {
    if ops[i].kind.W? {
      WriteIntends(ops, i);
    } else {
      ReadIntends(ops, i);
    }
  }

  lemma WriteIntends(ops: seq<Op>, i: nat)
    requires i < |ops| && ops[i].kind.W?
    ensures AllIntended([WriteStep(ops, i)]) == TraceWrites(ops[i..i + 1])
    ensures HasPreValue(WriteStep(ops, i))
  {
    hide RmwValue, AndNot, AccessWidth;
    assert ops[i..i + 1] == [] + [ops[i]];
    TraceWritesConcat([], [ops[i]]);
    IntendedConcat([], [WriteStep(ops, i)]);
    if Fused(ops, i) {
      DeltaRestores(ops[i - 1].value, ops[i].value);
    }
  }

  lemma ReadIntends(ops: seq<Op>, i: nat)
    requires i < |ops| && ops[i].kind.R?
    ensures AllIntended(StepsAt(ops, i)) == [] == TraceWrites(ops[i..NextAt(ops, i)])
    ensures AllHavePreValue(StepsAt(ops, i))
  {
    hide AndNot, RunSteps, Order;
    ReadsWriteNothing(ops[i..NextAt(ops, i)]);
    if AckRead(ops, i) {
      IntendedConcat([], StepsAt(ops, i));
    } else if !HandOff(ops, i) {
      var run := ops[i..RunEnd(ops, i)];
      RunStepsOnlyRead(run, Order(run));
      ReadsIntendNothing(RunSteps(run, Order(run)));
    }
  }

  lemma PreValuesConcat(s: seq<Step>, t: seq<Step>)
    requires AllHavePreValue(s) && AllHavePreValue(t)
    ensures AllHavePreValue(s + t)
  {
  }

  lemma NothingLeftToIntend(ops: seq<Op>)
    ensures AllIntended(PlanFrom(ops, |ops|)) == TraceWrites(ops[|ops|..])
    ensures AllHavePreValue(PlanFrom(ops, |ops|))
  {
    assert ops[|ops|..] == [];
  }

  lemma {:induction false} PlanIntends(ops: seq<Op>, i: nat)
    requires i <= |ops|
    ensures AllIntended(PlanFrom(ops, i)) == TraceWrites(ops[i..])
    ensures AllHavePreValue(PlanFrom(ops, i))
    decreases |ops| - i
  {
    NothingLeftToIntend(ops);
    hide StepsAt, NextAt, AllHavePreValue, AllIntended, TraceWrites;
    if i < |ops| {
      var j := NextAt(ops, i);
      StepsAtIntend(ops, i);
      PlanIntends(ops, j);
      PreValuesConcat(StepsAt(ops, i), PlanFrom(ops, j));
      IntendedConcat(StepsAt(ops, i), PlanFrom(ops, j));
      TraceWritesConcat(ops[i..j], ops[j..]);
      assert ops[i..] == ops[i..j] + ops[j..];
    }
  }

  /** Whatever the device answers: a replay that finishes with no fault and no pre-value surprise has
      issued the trace's writes, all of them, in order, and nothing else. */
  lemma ReplayIsFaithful<S>(dev: Device<S>, ops: seq<Op>, s: S)
    ensures var r := Run(dev, Machine(s, [], ZERO, Running), Plan(ops));
      r.out.Running? && r.c.faults == 0 && r.c.preMismatch == 0 ==> Stores(r.trail) == TraceWrites(ops)
  {
    hide Run, PlanFrom, AllHavePreValue;
    PlanIntends(ops, 0);
    RunStores(dev, Machine(s, [], ZERO, Running), Plan(ops));
    assert ops[0..] == ops;
  }

  /** The writes of a trace, with the widths it records. */
  function RecordedWrites(ops: seq<Op>): seq<Issued> {
    if ops == [] then []
    else
      var o := ops[|ops| - 1];
      RecordedWrites(ops[..|ops| - 1]) + (if o.kind.W? then [Issued(o.addr, o.width, o.value)] else [])
  }

  /** The trace format knows accesses of 1, 2 and 4 bytes. */
  ghost predicate TraceWidths(ops: seq<Op>) {
    forall i :: 0 <= i < |ops| ==> ops[i].width == 1 || ops[i].width == 2 || ops[i].width == 4
  }

  lemma {:induction false} WidthsKept(ops: seq<Op>)
    requires TraceWidths(ops)
    ensures TraceWrites(ops) == RecordedWrites(ops)
  {
    if ops != [] { WidthsKept(ops[..|ops| - 1]); }
  }

  /** And each write goes out at the width the trace records. */
  lemma ReplayKeepsWidths<S>(dev: Device<S>, ops: seq<Op>, s: S)
    requires TraceWidths(ops)
    ensures var r := Run(dev, Machine(s, [], ZERO, Running), Plan(ops));
      r.out.Running? && r.c.faults == 0 && r.c.preMismatch == 0 ==> Stores(r.trail) == RecordedWrites(ops)
  {
    hide Run, PlanFrom, Stores, TraceWrites, RecordedWrites;
    ReplayIsFaithful(dev, ops, s);
    WidthsKept(ops);
  }
}
