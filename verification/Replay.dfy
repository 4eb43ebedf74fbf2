/** The replayer: runs planned steps against a live device that may answer, fault or die at any access. */
module Replay {
  import opened Mmio
  import opened TraceOps

  /** What the guard hands back for a load the bus refused. */
  const GUARD_SENTINEL: bv64 := 0xacce5515

  /** An access either works or raises; a host that raised may still be alive. */
  datatype Answer = Value(v: bv64) | Raised(alive: bool)

  /** Any device: its own state, its answers, and how many reads fit before a poll's deadline. */
  datatype Device<!S> = Device(
    read: (S, int, nat) -> (S, Answer),
    write: (S, int, nat, bv64) -> (S, Answer),
    pollReads: S -> nat)

  datatype Access =
    | Loaded(addr: int, width: nat, answer: Answer)
    | Stored(addr: int, width: nat, value: bv64, answer: Answer)

  datatype Counters = Counters(writes: nat, rmws: nat, readsMatch: nat, readsMismatch: nat,
                               pollsOk: nat, pollsTimeout: nat, preMismatch: nat, faults: nat)

  const ZERO := Counters(0, 0, 0, 0, 0, 0, 0, 0)

  /** `Wedged`: the host stopped answering. `NoPollRead`: a poll's deadline passed before its first
      read, and reporting its missing value raises. Both end the replay. */
  datatype Outcome = Running | Wedged | NoPollRead

  datatype Machine<S> = Machine(s: S, trail: seq<Access>, c: Counters, out: Outcome)

  /** Accesses are 4 or 2 bytes wide, or else one byte. */
  function AccessWidth(width: nat): nat {
    if width == 4 then 4 else if width == 2 then 2 else 1
  }

  // ------------------------------------------------------ specification of a step

  function After(a: Answer): Outcome {
    if a.Raised? && !a.alive then Wedged else Running
  }

  function DoRead<S>(dev: Device<S>, m: Machine<S>, op: Op): (Machine<S>, Option<bv64>) {
    var w := AccessWidth(op.width);
    var (s, a) := dev.read(m.s, op.addr, w);
    (m.(s := s, trail := m.trail + [Loaded(op.addr, w, a)], out := After(a)),
     if a.Value? then Some(a.v) else None)
  }

  function DoWrite<S>(dev: Device<S>, m: Machine<S>, op: Op, v: bv64): Machine<S> {
    var w := AccessWidth(op.width);
    var (s, a) := dev.write(m.s, op.addr, w, v);
    m.(s := s, trail := m.trail + [Stored(op.addr, w, v, a)], out := After(a))
  }

  function RmwValue(pre: bv64, set_: bv64, clr: bv64): bv64 {
    AndNot(Or(pre, set_), clr)
  }

  predicate Satisfied(step: Step, v: bv64) {
    match step
    case PollMask(_, mask) => v & mask == mask
    case PollVal(_, target, _) => v == target
    case _ => true
  }

  /** Up to `n` more reads of a poll; `seen` tells whether one was made already. */
  function Poll<S>(dev: Device<S>, m: Machine<S>, step: Step, n: nat, seen: bool): Machine<S>
    decreases n
  {
    if n == 0 then
      if seen then m.(c := m.c.(pollsTimeout := m.c.pollsTimeout + 1)) else m.(out := NoPollRead)
    else
      var (m', v) := DoRead(dev, m, step.op);
      if !m'.out.Running? then m'
      else if v.None? then m'.(c := m'.c.(faults := m'.c.faults + 1))
      else if Satisfied(step, v.value) then m'.(c := m'.c.(pollsOk := m'.c.pollsOk + 1))
      else Poll(dev, m', step, n - 1, true)
  }

  function ExecWrite<S>(dev: Device<S>, m: Machine<S>, step: Step): Machine<S>
    requires step.NakedWrite?
  {
    var m' := DoWrite(dev, m, step.op, step.value);
    if m'.out.Running? then m'.(c := m'.c.(writes := m'.c.writes + 1)) else m'
  }

  function ExecRmw<S>(dev: Device<S>, m: Machine<S>, step: Step): Machine<S>
    requires step.Rmw?
  {
    var (m1, pre) := DoRead(dev, m, step.op);
    if !m1.out.Running? then m1
    else if pre.None? || (step.op.width == 4 && pre.value == GUARD_SENTINEL) then
      m1.(c := m1.c.(faults := m1.c.faults + 1))
    else
      var surprise := step.expPre.Some? && pre.value != step.expPre.value;
      var m2 := if surprise then m1.(c := m1.c.(preMismatch := m1.c.preMismatch + 1)) else m1;
      var m3 := DoWrite(dev, m2, step.op, RmwValue(pre.value, step.set_, step.clr));
      if m3.out.Running? then m3.(c := m3.c.(rmws := m3.c.rmws + 1)) else m3
  }

  function ExecRead<S>(dev: Device<S>, m: Machine<S>, step: Step): Machine<S>
    requires step.ReadCheck?
  {
    var (m', v) := DoRead(dev, m, step.op);
    if !m'.out.Running? then m'
    else if v.None? then m'.(c := m'.c.(faults := m'.c.faults + 1))
    else if v.value == step.want then m'.(c := m'.c.(readsMatch := m'.c.readsMatch + 1))
    else m'.(c := m'.c.(readsMismatch := m'.c.readsMismatch + 1))
  }

  function Exec<S>(dev: Device<S>, m: Machine<S>, step: Step): Machine<S> {
    match step
    case NakedWrite(_, _) => ExecWrite(dev, m, step)
    case Rmw(_, _, _, _) => ExecRmw(dev, m, step)
    case ReadCheck(_, _) => ExecRead(dev, m, step)
    case PollMask(_, _) => Poll(dev, m, step, dev.pollReads(m.s), false)
    case PollVal(_, _, _) => Poll(dev, m, step, dev.pollReads(m.s), false)
  }

  /** The steps in order, until one ends the replay. */
  function Run<S>(dev: Device<S>, m: Machine<S>, steps: seq<Step>): Machine<S> {
    if steps == [] then m
    else
      var m' := Run(dev, m, steps[..|steps| - 1]);
      if m'.out.Running? then Exec(dev, m', steps[|steps| - 1]) else m'
  }

  // ------------------------------------------------------------ the live objects

  class Stats {
    var writes: nat
    var rmws: nat
    var readsMatch: nat
    var readsMismatch: nat
    var pollsOk: nat
    var pollsTimeout: nat
    var preMismatch: nat
    var faults: nat

    constructor ()
      ensures Now() == ZERO
    {
      writes, rmws, readsMatch, readsMismatch := 0, 0, 0, 0;
      pollsOk, pollsTimeout, preMismatch, faults := 0, 0, 0, 0;
    }

    function Now(): Counters
      reads this
    {
      Counters(writes, rmws, readsMatch, readsMismatch, pollsOk, pollsTimeout, preMismatch, faults)
    }
  }

  /** The connection to the device, with a record of every access made over it. */
  class Host<S> {
    const dev: Device<S>
    var s: S
    var trail: seq<Access>

    constructor (dev: Device<S>, s: S)
      ensures this.dev == dev && this.s == s && trail == []
    {
      this.dev, this.s, trail := dev, s, [];
    }

    /** One load; a raise with the host dead is a wedge, any other raise yields nothing. */
    method Read(op: Op) returns (v: Option<bv64>, out: Outcome)
      modifies this
      ensures forall c :: DoRead(dev, Machine(old(s), old(trail), c, Running), op) == (Machine(s, trail, c, out), v)
    {
      var w := AccessWidth(op.width);
      var (s', a) := dev.read(s, op.addr, w);
      s, trail := s', trail + [Loaded(op.addr, w, a)];
      v := if a.Value? then Some(a.v) else None;
      out := After(a);
    }

    method Write(op: Op, v: bv64) returns (out: Outcome)
      modifies this
      ensures forall c :: DoWrite(dev, Machine(old(s), old(trail), c, Running), op, v) == Machine(s, trail, c, out)
    {
      var w := AccessWidth(op.width);
      var (s', a) := dev.write(s, op.addr, w, v);
      s, trail := s', trail + [Stored(op.addr, w, v, a)];
      out := After(a);
    }

    method ExecPoll(step: Step, stats: Stats) returns (out: Outcome)
      modifies this, stats
      ensures Machine(s, trail, stats.Now(), out) ==
              Poll(dev, Machine(old(s), old(trail), old(stats.Now()), Running), step, dev.pollReads(old(s)), false)
    {
      hide Satisfied, AccessWidth;
      var n := dev.pollReads(s);
      var seen := false;
      ghost var goal := Poll(dev, Machine(s, trail, stats.Now(), Running), step, n, false);
      while n > 0
        invariant stats.Now() == old(stats.Now())
        invariant goal == Poll(dev, Machine(s, trail, stats.Now(), Running), step, n, seen)
      {
        var v;
        v, out := Read(step.op);
        if !out.Running? { return; }
        if v.None? {
          stats.faults := stats.faults + 1;
          return;
        }
        if Satisfied(step, v.value) {
          stats.pollsOk := stats.pollsOk + 1;
          return;
        }
        seen, n := true, n - 1;
      }
      if !seen { return NoPollRead; }
      stats.pollsTimeout := stats.pollsTimeout + 1;
      out := Running;
    }

    method ExecStep(step: Step, stats: Stats) returns (out: Outcome)
      modifies this, stats
      ensures Machine(s, trail, stats.Now(), out) ==
              Exec(dev, Machine(old(s), old(trail), old(stats.Now()), Running), step)
    {
      if step.NakedWrite? {
        out := Write(step.op, step.value);
        if out.Running? { stats.writes := stats.writes + 1; }
      } else if step.Rmw? {
        out := ExecRmwStep(step, stats);
      } else if step.ReadCheck? {
        var v;
        v, out := Read(step.op);
        if !out.Running? { return; }
        if v.None? {
          stats.faults := stats.faults + 1;
        } else if v.value == step.want {
          stats.readsMatch := stats.readsMatch + 1;
        } else {
          stats.readsMismatch := stats.readsMismatch + 1;
        }
      } else {
        out := ExecPoll(step, stats);
      }
    }

    method ExecRmwStep(step: Step, stats: Stats) returns (out: Outcome)
      requires step.Rmw?
      modifies this, stats
      ensures Machine(s, trail, stats.Now(), out) ==
              ExecRmw(dev, Machine(old(s), old(trail), old(stats.Now()), Running), step)
    {
      hide DoRead, DoWrite, RmwValue, AccessWidth;
      var pre;
      pre, out := Read(step.op);
      if !out.Running? { return; }
      if pre.None? {
        stats.faults := stats.faults + 1;
        return;
      }
      if step.op.width == 4 && pre.value == GUARD_SENTINEL {
        stats.faults := stats.faults + 1;
        return;
      }
      if step.expPre.Some? && pre.value != step.expPre.value {
        stats.preMismatch := stats.preMismatch + 1;
      }
      out := Write(step.op, RmwValue(pre.value, step.set_, step.clr));
      if out.Running? { stats.rmws := stats.rmws + 1; }
    }

    method ReplaySegment(steps: seq<Step>, stats: Stats) returns (out: Outcome)
      modifies this, stats
      ensures Machine(s, trail, stats.Now(), out) ==
              Run(dev, Machine(old(s), old(trail), old(stats.Now()), Running), steps)
    {
      out := Running;
      ghost var start := Machine(s, trail, stats.Now(), Running);
      for k := 0 to |steps|
        invariant out.Running?
        invariant Machine(s, trail, stats.Now(), out) == Run(dev, start, steps[..k])
      {
        assert steps[..k + 1][..k] == steps[..k];
        out := ExecStep(steps[k], stats);
        if !out.Running? {
          StopsThere(dev, start, steps, k + 1);
          return;
        }
      }
      assert steps[..|steps|] == steps;
    }
  }

  /** A replay that ended stays ended. */
  lemma {:induction false} StopsThere<S>(dev: Device<S>, m: Machine<S>, steps: seq<Step>, k: nat)
    requires k <= |steps| && !Run(dev, m, steps[..k]).out.Running?
    ensures Run(dev, m, steps) == Run(dev, m, steps[..k])
  {
    if k == |steps| {
      assert steps[..k] == steps;
    } else {
      assert steps[..|steps| - 1][..k] == steps[..k];
      StopsThere(dev, m, steps[..|steps| - 1], k);
    }
  }
}
