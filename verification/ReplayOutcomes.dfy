/** What the replayer's counters say about the answers it got, step by step. */
module ReplayOutcomes {
  import opened Mmio
  import opened TraceOps
  import opened Replay

  // ------------------------------------------------------------------ bits

  lemma BitZero(k: nat)
    ensures !Bit(0, k)
  {
  }

  lemma AndNotBit(a: bv64, b: bv64, j: nat, k: nat)
    requires j < 8 && k < 8
    ensures Bit(ByteAt(AndNot(a, b), j), k) == (Bit(ByteAt(a, j), k) && !Bit(ByteAt(b, j), k))
  {
    hide ByteAt, AndNot, MaskedByte, Bit;
    AndNotByte(a, b, j);
    MaskedBit(ByteAt(a, j), ByteAt(b, j), 0, k);
    BitZero(k);
  }

  lemma HoldsMask(v: bv64, mask: bv64)
    requires v & mask == mask
    ensures AndNot(mask, v) == 0
  {
  }

  lemma MissesMask(v: bv64, mask: bv64)
    requires AndNot(mask, v) == 0
    ensures v & mask == mask
  {
  }

  lemma SatisfiesMask(op: Op, mask: bv64, v: bv64)
    ensures Satisfied(PollMask(op, mask), v) <==> AndNot(mask, v) == 0
  {
    hide AndNot;
    if Satisfied(PollMask(op, mask), v) { HoldsMask(v, mask); }
    if AndNot(mask, v) == 0 { MissesMask(v, mask); }
  }

  /** Bit `k` of byte `j`. */
  predicate Shows(v: bv64, j: nat, k: nat) {
    Bit(ByteAt(v, j), k)
  }

  ghost predicate NoBits(u: bv64) {
    forall j: nat, k: nat :: j < 8 && k < 8 ==> !Shows(u, j, k)
  }

  lemma ZeroShowsNothing()
    ensures NoBits(0)
  {
    hide ByteAt, Bit;
    forall j: nat, k: nat | j < 8 && k < 8 ensures !Shows(0, j, k) {
      ZeroByte(j);
      BitZero(k);
    }
  }

  lemma NoBitsIsZero(u: bv64)
    requires NoBits(u)
    ensures u == 0
  {
    hide ByteAt, Bit;
    forall j: nat | j < 8 ensures ByteAt(u, j) == ByteAt(0, j) {
      ZeroByte(j);
      forall k: nat | k < 8 ensures Bit(ByteAt(u, j), k) == Bit(0, k) {
        BitZero(k);
        assert !Shows(u, j, k);
      }
      BitsDetermine(ByteAt(u, j), 0);
    }
    BytesDetermine(u, 0);
  }

  /** What a poll waits for: every bit of the mask, or the very value. */
  ghost predicate Meets(step: Step, v: bv64) {
    match step
    case PollMask(_, mask) => forall j: nat, k: nat :: j < 8 && k < 8 && Shows(mask, j, k) ==> Shows(v, j, k)
    case PollVal(_, target, _) => v == target
    case _ => false
  }

  lemma MaskShown(mask: bv64, v: bv64)
    ensures NoBits(AndNot(mask, v)) <==>
      forall j: nat, k: nat :: j < 8 && k < 8 && Shows(mask, j, k) ==> Shows(v, j, k)
  {
    hide ByteAt, Bit, AndNot;
    forall j: nat, k: nat | j < 8 && k < 8
      ensures Shows(AndNot(mask, v), j, k) == (Shows(mask, j, k) && !Shows(v, j, k))
    {
      AndNotBit(mask, v, j, k);
    }
  }

  lemma SatisfiedIff(step: Step, v: bv64)
    requires step.PollMask? || step.PollVal?
    ensures Satisfied(step, v) <==> Meets(step, v)
  {
    if step.PollMask? {
      SatisfiesMask(step.op, step.mask, v);
      MaskShown(step.mask, v);
      ZeroShowsNothing();
      hide Satisfied, Shows, NoBits, AndNot;
      if NoBits(AndNot(step.mask, v)) { NoBitsIsZero(AndNot(step.mask, v)); }
    }
  }

  // ------------------------------------------------------------- one access

  /** 4 and 2 bytes are accessed as such, every other width as one byte. */
  predicate AtRegister(x: Access, op: Op) {
    x.addr == op.addr && x.width == (if op.width == 4 then 4 else if op.width == 2 then 2 else 1)
  }

  predicate HostDied(x: Access) {
    x.answer == Raised(false)
  }

  predicate Answered(x: Access) {
    x.Loaded? && x.answer.Value?
  }

  lemma OneLoad<S>(dev: Device<S>, m: Machine<S>, op: Op)
    ensures var (r, v) := DoRead(dev, m, op);
      && r.c == m.c && |r.trail| == |m.trail| + 1 && r.trail[..|m.trail|] == m.trail
      && var x := r.trail[|m.trail|];
      && x.Loaded? && AtRegister(x, op) && r.trail == m.trail + [x]
      && r.out == (if HostDied(x) then Wedged else Running)
      && v == (if Answered(x) then Some(x.answer.v) else None)
  {
  }

  lemma OneStore<S>(dev: Device<S>, m: Machine<S>, op: Op, v: bv64)
    ensures var r := DoWrite(dev, m, op, v);
      && r.c == m.c && |r.trail| == |m.trail| + 1
      && var x := r.trail[|m.trail|];
      && x.Stored? && AtRegister(x, op) && x.value == v && r.trail == m.trail + [x]
      && r.out == (if HostDied(x) then Wedged else Running)
  {
  }

  // ------------------------------------------------------- one step, by its answers

  /** A naked write: one store, counted unless the host died, even if it raised. */
  lemma WriteOutcome<S>(dev: Device<S>, m: Machine<S>, step: Step) returns (x: Access)
    requires m.out.Running? && step.NakedWrite?
    ensures var r := Exec(dev, m, step);
      && r.trail == m.trail + [x] && x.Stored? && AtRegister(x, step.op) && x.value == step.value
      && r.out == (if HostDied(x) then Wedged else Running)
      && r.c == (if HostDied(x) then m.c else m.c.(writes := m.c.writes + 1))
  {
    hide AccessWidth, AtRegister, DoWrite;
    OneStore(dev, m, step.op, step.value);
    x := DoWrite(dev, m, step.op, step.value).trail[|m.trail|];
  }

  /** A read check: one load; a match is an answer equal to the trace's value, a mismatch any other answer, a fault a
      raise with the host alive. */
  lemma ReadOutcome<S>(dev: Device<S>, m: Machine<S>, step: Step) returns (x: Access)
    requires m.out.Running? && step.ReadCheck?
    ensures var r := Exec(dev, m, step);
      && r.trail == m.trail + [x] && x.Loaded? && AtRegister(x, step.op)
      && r.out == (if HostDied(x) then Wedged else Running)
      && r.c == (match x.answer
         case Value(v) => if v == step.want then m.c.(readsMatch := m.c.readsMatch + 1)
                          else m.c.(readsMismatch := m.c.readsMismatch + 1)
         case Raised(alive) => if alive then m.c.(faults := m.c.faults + 1) else m.c)
  {
    hide AccessWidth, AtRegister, DoRead;
    OneLoad(dev, m, step.op);
    x := DoRead(dev, m, step.op).0.trail[|m.trail|];
  }

  /** The pre-read of a read-modify-write forbids the write: it raised, or is the sentinel at four bytes. */
  predicate Forbids(x: Access, op: Op) {
    !Answered(x) || (op.width == 4 && x.answer.v == 0xacce5515)
  }

  predicate Surprises(x: Access, step: Step)
    requires step.Rmw?
  {
    Answered(x) && step.expPre.Some? && x.answer.v != step.expPre.value
  }

  /** A read-modify-write: a load, then unless it forbids it a store of the loaded value with the set bits on and the
      clear bits off; a surprise is counted when the loaded value is not the trace's. */
  lemma RmwOutcome<S>(dev: Device<S>, m: Machine<S>, step: Step) returns (more: seq<Access>)
    requires m.out.Running? && step.Rmw?
    ensures var r := Exec(dev, m, step);
      && r.trail == m.trail + more && 1 <= |more| <= 2
      && more[0].Loaded? && AtRegister(more[0], step.op)
      && (|more| == 1 <==> Forbids(more[0], step.op))
      && (|more| == 1 ==>
           && r.out == (if HostDied(more[0]) then Wedged else Running)
           && r.c == (if HostDied(more[0]) then m.c else m.c.(faults := m.c.faults + 1)))
      && (|more| == 2 ==>
           && more[1].Stored? && AtRegister(more[1], step.op)
           && more[1].value == AndNot(Or(more[0].answer.v, step.set_), step.clr)
           && r.out == (if HostDied(more[1]) then Wedged else Running)
           && r.c == m.c.(preMismatch := m.c.preMismatch + (if Surprises(more[0], step) then 1 else 0),
                          rmws := m.c.rmws + (if HostDied(more[1]) then 0 else 1)))
  {
    hide AccessWidth, AtRegister, DoRead, DoWrite, Or, AndNot;
    OneLoad(dev, m, step.op);
    var (m1, pre) := DoRead(dev, m, step.op);
    var x := m1.trail[|m.trail|];
    more := [x];
    if !Forbids(x, step.op) {
      var m2 := if Surprises(x, step) then m1.(c := m1.c.(preMismatch := m1.c.preMismatch + 1)) else m1;
      var v := RmwValue(x.answer.v, step.set_, step.clr);
      OneStore(dev, m2, step.op, v);
      var y := DoWrite(dev, m2, step.op, v).trail[|m2.trail|];
      more := [x, y];
      assert m.trail + [x, y] == (m.trail + [x]) + [y];
    }
  }

  /** Loads that answered and did not show what the poll waits for. */
  ghost predicate Unmet(more: seq<Access>, step: Step) {
    forall k :: 0 <= k < |more| ==> Answered(more[k]) && !Meets(step, more[k].answer.v)
  }

  ghost predicate AllAtRegister(more: seq<Access>, op: Op) {
    forall k :: 0 <= k < |more| ==> more[k].Loaded? && AtRegister(more[k], op)
  }

  /** How a poll that made the loads `more`, and may make `n`, ended. */
  ghost predicate PollEnded(c: Counters, c': Counters, out: Outcome, step: Step, more: seq<Access>, n: nat)
    requires more != []
  {
    var x := more[|more| - 1];
    && Unmet(more[..|more| - 1], step)
    && match x.answer
       case Raised(alive) =>
         if alive then out.Running? && c' == c.(faults := c.faults + 1) else out.Wedged? && c' == c
       case Value(v) =>
         && out.Running?
         && (if Meets(step, v) then c' == c.(pollsOk := c.pollsOk + 1)
             else |more| == n && c' == c.(pollsTimeout := c.pollsTimeout + 1))
  }

  lemma PollEndedCons(c: Counters, c': Counters, out: Outcome, step: Step, x: Access, rest: seq<Access>, n: nat)
    requires rest != [] && PollEnded(c, c', out, step, rest, n)
    requires Answered(x) && !Meets(step, x.answer.v)
    ensures PollEnded(c, c', out, step, [x] + rest, n + 1)
  {
    hide Meets;
    var more := [x] + rest;
    assert more[..|more| - 1] == [x] + rest[..|rest| - 1];
  }

  lemma {:induction false} PollReads<S>(dev: Device<S>, m: Machine<S>, step: Step, n: nat, seen: bool)
    returns (more: seq<Access>)
    requires m.out.Running? && (step.PollMask? || step.PollVal?)
    ensures var r := Poll(dev, m, step, n, seen);
      && r.trail == m.trail + more && AllAtRegister(more, step.op) && |more| <= n
      && (if more == []
          then n == 0 && (if seen then r.out.Running? && r.c == m.c.(pollsTimeout := m.c.pollsTimeout + 1)
                          else r.out.NoPollRead? && r.c == m.c)
          else PollEnded(m.c, r.c, r.out, step, more, n))
    decreases n
  {
    hide Satisfied, AccessWidth, AtRegister, DoRead, Meets;
    more := [];
    if n > 0 {
      OneLoad(dev, m, step.op);
      var (m', v) := DoRead(dev, m, step.op);
      var x := m'.trail[|m.trail|];
      more := [x];
      if v.Some? {
        SatisfiedIff(step, v.value);
        if !Satisfied(step, v.value) {
          var rest := PollReads(dev, m', step, n - 1, true);
          assert m.trail + ([x] + rest) == (m.trail + [x]) + rest;
          if rest != [] {
            var r := Poll(dev, m', step, n - 1, true);
            PollEndedCons(m.c, r.c, r.out, step, x, rest, n - 1);
            more := [x] + rest;
          }
        }
      }
    }
  }

  /** A poll: loads of its register, of which all but the last answered without what it waits for. It is counted ok
      exactly when the last shows it, timed out exactly when all the reads that fit were made in vain, a fault when the
      last raised; with no read at all its report raises. */
  lemma PollOutcome<S>(dev: Device<S>, m: Machine<S>, step: Step) returns (more: seq<Access>)
    requires m.out.Running? && (step.PollMask? || step.PollVal?)
    ensures var r, n := Exec(dev, m, step), dev.pollReads(m.s);
      && r.trail == m.trail + more && AllAtRegister(more, step.op) && |more| <= n
      && (more == [] <==> n == 0)
      && (if more == [] then r.out.NoPollRead? && r.c == m.c else PollEnded(m.c, r.c, r.out, step, more, n))
  {
    hide Satisfied, AccessWidth, AtRegister, Poll, Meets;
    more := PollReads(dev, m, step, dev.pollReads(m.s), false);
  }

  // ------------------------------------------------------------- whole replays

  /** The accesses of one step: the host dies at most at the last of them, and exactly then the replay is wedged. */
  lemma StepWedges<S>(dev: Device<S>, m: Machine<S>, step: Step) returns (more: seq<Access>)
    requires m.out.Running?
    ensures var r := Exec(dev, m, step);
      && r.trail == m.trail + more
      && (forall k :: 0 <= k < |more| - 1 ==> !HostDied(more[k]))
      && (r.out.Wedged? <==> more != [] && HostDied(more[|more| - 1]))
  {
    hide Exec, Meets, AtRegister, AndNot, Or;
    if step.NakedWrite? {
      var x := WriteOutcome(dev, m, step);
      more := [x];
    } else if step.ReadCheck? {
      var x := ReadOutcome(dev, m, step);
      more := [x];
    } else if step.Rmw? {
      more := RmwOutcome(dev, m, step);
    } else {
      more := PollOutcome(dev, m, step);
      if more != [] {
        forall k | 0 <= k < |more| - 1 ensures !HostDied(more[k]) { assert Answered(more[..|more| - 1][k]); }
      }
    }
  }

  /** A replay is wedged exactly when its last access found the host dead, and no access before it did. */
  lemma {:induction false} WedgedIff<S>(dev: Device<S>, s: S, steps: seq<Step>)
    ensures var r := Run(dev, Machine(s, [], ZERO, Running), steps);
      && (forall k :: 0 <= k < |r.trail| - 1 ==> !HostDied(r.trail[k]))
      && (r.out.Wedged? <==> r.trail != [] && HostDied(r.trail[|r.trail| - 1]))
  {
    hide Exec, HostDied;
    if steps != [] {
      var before := Run(dev, Machine(s, [], ZERO, Running), steps[..|steps| - 1]);
      WedgedIff(dev, s, steps[..|steps| - 1]);
      if before.out.Running? {
        var more := StepWedges(dev, before, steps[|steps| - 1]);
      }
    }
  }
}
