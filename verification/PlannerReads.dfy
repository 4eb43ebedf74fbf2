/** Which step each trace line gets, told from its neighbours alone. */
module PlannerReads {
  import opened Mmio
  import opened TraceOps
  import opened PlannerAccounting

  // --------------------------------------------------- writes and acknowledgements

  /** Op `i` follows an op of kind `before` on the same address with the same width. */
  predicate Follows(ops: seq<Op>, i: nat, before: Kind)
    requires i < |ops|
  {
    i > 0 && ops[i - 1].kind == before && ops[i - 1].addr == ops[i].addr && ops[i - 1].width == ops[i].width
  }

  /** The step is the one op `i` must get: a masked update for a write right after a read of its register, a naked write
      for any other write, and a poll for the new bits for a read right after a write to its register that shows some. */
  predicate StandsFor(ops: seq<Op>, i: nat, s: Step)
    requires i < |ops|
  {
    s.op == ops[i] &&
    match s
    case NakedWrite(_, value) => ops[i].kind.W? && !Follows(ops, i, R) && value == ops[i].value
    case Rmw(_, set_, clr, pre) =>
      && ops[i].kind.W? && Follows(ops, i, R) && pre == Some(ops[i - 1].value)
      && set_ == AndNot(ops[i].value, ops[i - 1].value) && clr == AndNot(ops[i - 1].value, ops[i].value)
    case PollMask(_, mask) =>
      ops[i].kind.R? && Follows(ops, i, W) && mask == AndNot(ops[i].value, ops[i - 1].value) && mask != 0
    case ReadCheck(_, _) => false
    case PollVal(_, _, _) => false
  }

  predicate ReadsRun(s: Step) {
    s.ReadCheck? || s.PollVal?
  }

  lemma StepsAtStand(ops: seq<Op>, i: nat, s: Step)
    requires i < |ops| && s in StepsAt(ops, i) && !ReadsRun(s)
    ensures StandsFor(ops, i, s)
  {
    hide AndNot;
    if ops[i].kind.R? && !AckRead(ops, i) && !HandOff(ops, i) {
      var run := ops[i..RunEnd(ops, i)];
      RunStepsOnlyRead(run, Order(run));
    }
  }

  lemma {:induction false} PlannedStand(ops: seq<Op>, i: nat, s: Step)
    requires i <= |ops| && s in PlanFrom(ops, i) && !ReadsRun(s)
    ensures exists k :: 0 <= k < |ops| && StandsFor(ops, k, s)
    decreases |ops| - i
  {
    hide StepsAt, NextAt, StandsFor;
    if s in StepsAt(ops, i) { StepsAtStand(ops, i, s); } else { PlannedStand(ops, NextAt(ops, i), s); }
  }

  /** Behind a write the planner always stops, and behind an acknowledgement. */
  lemma StopsBehindWrite(ops: seq<Op>, i: nat)
    requires 0 < i <= |ops| && ops[i - 1].kind.W?
    ensures EndsPlan(ops, i)
  {
    hide PlanFrom, WriteStep, StepsBefore;
    SplitAtWrite(ops, 0, i - 1);
    WriteHere(ops, i - 1);
    Regroup(StepsBefore(ops, 0, i - 1), [WriteStep(ops, i - 1)], PlanFrom(ops, i));
  }

  lemma Regroup(a: seq<Step>, b: seq<Step>, c: seq<Step>)
    ensures a + (b + c) == (a + b) + c
  {
  }

  /** The plan ends with what the planner makes of the ops from `i` on. */
  ghost predicate EndsPlan(ops: seq<Op>, i: nat)
    requires i <= |ops|
  {
    exists before :: Plan(ops) == before + PlanFrom(ops, i)
  }

  lemma StandsPlanned(ops: seq<Op>, i: nat, s: Step)
    requires i < |ops| && StandsFor(ops, i, s)
    ensures s in Plan(ops)
  {
    hide PlanFrom, AndNot;
    if ops[i].kind.W? {
      PlanAtWrite(ops, i);
    } else {
      StopsBehindWrite(ops, i);
      AckHere(ops, i);
      var before :| Plan(ops) == before + PlanFrom(ops, i);
      assert s in PlanFrom(ops, i);
    }
  }

  lemma AckHere(ops: seq<Op>, i: nat)
    requires i < |ops| && AckRead(ops, i)
    ensures PlanFrom(ops, i) == [PollMask(ops[i], AndNot(ops[i].value, ops[i - 1].value))] + PlanFrom(ops, i + 1)
  {
    hide AndNot;
  }

  /** The plan has a write, a masked update or a bit poll exactly where the trace asks for it. */
  lemma PlannedIff(ops: seq<Op>, s: Step)
    requires !ReadsRun(s)
    ensures s in Plan(ops) <==> exists i :: 0 <= i < |ops| && StandsFor(ops, i, s)
  {
    hide PlanFrom, StandsFor;
    if s in Plan(ops) { PlannedStand(ops, 0, s); }
    if i :| 0 <= i < |ops| && StandsFor(ops, i, s) { StandsPlanned(ops, i, s); }
  }

  // ------------------------------------------------------------- one run of reads

  /** How often the run reads the address. */
  function Reads(run: seq<Op>, a: int): nat {
    if run == [] then 0 else Reads(run[..|run| - 1], a) + (if run[|run| - 1].addr == a then 1 else 0)
  }

  /** Two reads of the address differ. */
  ghost predicate Varies(run: seq<Op>, a: int) {
    exists p, q :: 0 <= p < |run| && 0 <= q < |run| && run[p].addr == run[q].addr == a && run[p].value != run[q].value
  }

  ghost predicate LastRead(run: seq<Op>, a: int, o: Op) {
    o.addr == a && exists k :: 0 <= k < |run| && run[k] == o && forall l :: k < l < |run| ==> run[l].addr != a
  }

  ghost predicate InLineOrder(ops: seq<Op>) {
    forall i, j :: 0 <= i < j < |ops| ==> ops[i].line < ops[j].line
  }

  lemma {:induction false} GroupMembers(run: seq<Op>, a: int)
    ensures |At(run, a)| == Reads(run, a)
    ensures forall o :: o in run && o.addr == a ==> o in At(run, a)
  {
    if run != [] {
      GroupMembers(run[..|run| - 1], a);
      assert run == run[..|run| - 1] + [run[|run| - 1]];
    }
  }

  lemma LastReadStays(front: seq<Op>, last: Op, a: int, o: Op)
    requires LastRead(front, a, o) && last.addr != a
    ensures LastRead(front + [last], a, o)
  {
    var run := front + [last];
    var k :| 0 <= k < |front| && front[k] == o && forall l :: k < l < |front| ==> front[l].addr != a;
    assert run[k] == o;
  }

  ghost predicate EndsAtLast(run: seq<Op>, a: int, group: seq<Op>) {
    group != [] ==> LastRead(run, a, group[|group| - 1])
  }

  lemma EndsAtLastNext(front: seq<Op>, last: Op, a: int, group: seq<Op>)
    requires EndsAtLast(front, a, group)
    ensures EndsAtLast(front + [last], a, group + (if last.addr == a then [last] else []))
  {
    hide LastRead;
    if last.addr == a {
      LastReadHere(front + [last], a);
    } else if group != [] {
      LastReadStays(front, last, a, group[|group| - 1]);
    }
  }

  lemma NoGroup(a: int)
    ensures At([], a) == [] && EndsAtLast([], a, []) && InLineOrder([])
  {
  }

  lemma {:induction false} GroupLast(run: seq<Op>, a: int)
    ensures EndsAtLast(run, a, At(run, a))
  {
    hide *;
    NoGroup(a);
    if run != [] {
      var front, last := run[..|run| - 1], run[|run| - 1];
      GroupLast(front, a);
      AtSnoc(front, last, a);
      EndsAtLastNext(front, last, a, At(front, a));
      assert run == front + [last];
    }
  }

  lemma LastReadHere(run: seq<Op>, a: int)
    requires run != [] && run[|run| - 1].addr == a
    ensures LastRead(run, a, run[|run| - 1])
  {
  }

  lemma LinesNext(front: seq<Op>, last: Op, group: seq<Op>)
    requires InLineOrder(front + [last]) && InLineOrder(group) && forall o :: o in group ==> o in front
    ensures InLineOrder(group + [last])
  {
    var run := front + [last];
    forall k | 0 <= k < |group| ensures group[k].line < last.line {
      assert group[k] in group;
      var l :| 0 <= l < |front| && front[l] == group[k];
      assert run[l] == front[l] && run[|front|] == last;
    }
  }

  lemma LinesBefore(front: seq<Op>, last: Op)
    requires InLineOrder(front + [last])
    ensures InLineOrder(front)
  {
    var run := front + [last];
    assert forall k :: 0 <= k < |front| ==> front[k] == run[k];
  }

  lemma {:induction false} GroupLines(run: seq<Op>, a: int)
    requires InLineOrder(run)
    ensures InLineOrder(At(run, a))
  {
    hide *;
    NoGroup(a);
    if run != [] {
      var front, last := run[..|run| - 1], run[|run| - 1];
      assert run == front + [last];
      LinesBefore(front, last);
      GroupLines(front, a);
      AtSnoc(front, last, a);
      if last.addr == a {
        LinesNext(front, last, At(front, a));
      } else {
        assert At(front, a) + [] == At(front, a);
      }
    }
  }

  lemma GroupIs(run: seq<Op>, a: int)
    ensures |At(run, a)| == Reads(run, a)
    ensures forall o :: o in run && o.addr == a ==> o in At(run, a)
    ensures At(run, a) != [] ==> LastRead(run, a, At(run, a)[|At(run, a)| - 1])
    ensures InLineOrder(run) ==> InLineOrder(At(run, a))
  {
    hide At, Reads, LastRead, InLineOrder;
    GroupMembers(run, a);
    GroupLast(run, a);
    if InLineOrder(run) { GroupLines(run, a); }
  }

  lemma GroupVaries(run: seq<Op>, a: int)
    ensures Differ(At(run, a)) <==> Varies(run, a)
    ensures Differ(At(run, a)) ==> |At(run, a)| >= 2
  {
    hide *;
    GroupMembers(run, a);
    DiffersIff(run, a, At(run, a));
  }

  lemma DiffersIff(run: seq<Op>, a: int, group: seq<Op>)
    requires forall o :: o in group <==> o in run && o.addr == a
    ensures Differ(group) <==> Varies(run, a)
    ensures Differ(group) ==> |group| >= 2
  {
    if Differ(group) {
      var p, q :| 0 <= p < |group| && 0 <= q < |group| && group[p].value != group[q].value;
      assert group[p] in group && group[q] in group;
      var k :| 0 <= k < |run| && run[k] == group[p];
      var l :| 0 <= l < |run| && run[l] == group[q];
    }
    if Varies(run, a) {
      var p, q :| 0 <= p < |run| && 0 <= q < |run| && run[p].addr == run[q].addr == a && run[p].value != run[q].value;
      assert run[p] in run && run[q] in run;
      var k :| 0 <= k < |group| && group[k] == run[p];
      var l :| 0 <= l < |group| && group[l] == run[q];
    }
  }

  /** The steps for one address of a run: three reads, or two that differ, become one poll for the last value; other
      reads are checked one by one. */
  ghost predicate ReadsAsTold(run: seq<Op>, a: int, steps: seq<Step>) {
    if Reads(run, a) >= 3 || Varies(run, a) then
      && |steps| == 1 && steps[0].PollVal? && LastRead(run, a, steps[0].op)
      && steps[0].target == steps[0].op.value && steps[0].count == Reads(run, a)
    else
      && |steps| == Reads(run, a)
      && (forall k :: 0 <= k < |steps| ==>
           steps[k].ReadCheck? && steps[k].op in run && steps[k].op.addr == a && steps[k].want == steps[k].op.value)
      && (InLineOrder(run) ==> forall k, l :: 0 <= k < l < |steps| ==> steps[k].op.line < steps[l].op.line)
  }

  lemma GroupAsTold(run: seq<Op>, a: int)
    ensures ReadsAsTold(run, a, GroupSteps(At(run, a)))
  {
    hide At, Reads, LastRead, Varies, Differ;
    GroupIs(run, a);
    GroupVaries(run, a);
    var group := At(run, a);
    assert forall k :: 0 <= k < |group| ==> group[k] in group;
  }

  /** The steps for one address. */
  function On(steps: seq<Step>, a: int): seq<Step> {
    if steps == [] then []
    else On(steps[..|steps| - 1], a) + (if steps[|steps| - 1].op.addr == a then [steps[|steps| - 1]] else [])
  }

  lemma {:induction false} OnConcat(s: seq<Step>, t: seq<Step>, a: int)
    ensures On(s + t, a) == On(s, a) + On(t, a)
  {
    if t == [] {
      assert s + t == s;
    } else {
      OnConcat(s, t[..|t| - 1], a);
      assert (s + t)[..|s + t| - 1] == s + t[..|t| - 1];
    }
  }

  lemma {:induction false} OnAllOrNothing(steps: seq<Step>, a: int)
    ensures (forall k :: 0 <= k < |steps| ==> steps[k].op.addr == a) ==> On(steps, a) == steps
    ensures (forall k :: 0 <= k < |steps| ==> steps[k].op.addr != a) ==> On(steps, a) == []
  {
    if steps != [] { OnAllOrNothing(steps[..|steps| - 1], a); }
  }

  lemma GroupOf(run: seq<Op>, a: int)
    ensures forall k :: 0 <= k < |GroupSteps(At(run, a))| ==> GroupSteps(At(run, a))[k].op.addr == a
  {
    var group := At(run, a);
    assert forall k :: 0 <= k < |group| ==> group[k] in group;
  }

  lemma {:induction false} OnRun(run: seq<Op>, order: seq<int>, a: int)
    requires Distinct(order)
    ensures On(RunSteps(run, order), a) == if a in order then GroupSteps(At(run, a)) else []
  {
    hide GroupSteps, At, On;
    if order == [] {
      OnAllOrNothing([], a);
    } else {
      var front, b := order[..|order| - 1], order[|order| - 1];
      OnRun(run, front, a);
      OnConcat(RunSteps(run, front), GroupSteps(At(run, b)), a);
      GroupOf(run, b);
      OnAllOrNothing(GroupSteps(At(run, b)), a);
      ListedOnce(order, a);
    }
  }

  /** Where the address is first read, or the length of the run. */
  function First(run: seq<Op>, a: int): (k: nat)
    ensures k <= |run| && (forall l :: 0 <= l < k ==> run[l].addr != a) && (k < |run| ==> run[k].addr == a)
  {
    if run == [] then 0
    else
      var k := First(run[..|run| - 1], a);
      if k < |run| - 1 || run[|run| - 1].addr == a then k else |run|
  }

  lemma FirstSnoc(front: seq<Op>, last: Op, a: int)
    ensures First(front + [last], a) ==
      if First(front, a) < |front| then First(front, a) else if last.addr == a then |front| else |front| + 1
  {
    assert (front + [last])[..|front|] == front;
  }

  ghost predicate ByFirst(run: seq<Op>, order: seq<int>) {
    forall p, q :: 0 <= p < q < |order| ==> First(run, order[p]) < First(run, order[q])
  }

  ghost predicate Lists(run: seq<Op>, order: seq<int>) {
    ByFirst(run, order) && forall a :: a in order <==> First(run, a) < |run|
  }

  lemma ListsNext(front: seq<Op>, last: Op, order: seq<int>)
    requires Lists(front, order)
    ensures Lists(front + [last], if last.addr in order then order else order + [last.addr])
  {
    hide First;
    var run := front + [last];
    forall a
      ensures First(run, a) ==
        if First(front, a) < |front| then First(front, a) else if last.addr == a then |front| else |front| + 1
    {
      FirstSnoc(front, last, a);
    }
    assert forall k :: 0 <= k < |order| ==> order[k] in order;
  }

  lemma NothingListed()
    ensures Lists([], Order([]))
  {
  }

  lemma {:induction false} OrderByFirst(run: seq<Op>)
    ensures Lists(run, Order(run))
  {
    hide *;
    NothingListed();
    if run != [] {
      var front, last := run[..|run| - 1], run[|run| - 1];
      OrderByFirst(front);
      OrderSnoc(front, last);
      ListsNext(front, last, Order(front));
      assert run == front + [last];
    }
  }

  /** Steps of addresses read earlier come first. */
  ghost predicate InOrder(run: seq<Op>, steps: seq<Step>) {
    forall x, y :: 0 <= x < y < |steps| ==> First(run, steps[x].op.addr) <= First(run, steps[y].op.addr)
  }

  ghost predicate Along(run: seq<Op>, order: seq<int>, steps: seq<Step>) {
    InOrder(run, steps) && forall x :: 0 <= x < |steps| ==> steps[x].op.addr in order
  }

  lemma AlongNext(run: seq<Op>, front: seq<int>, a: int, steps: seq<Step>, more: seq<Step>)
    requires ByFirst(run, front + [a]) && Along(run, front, steps)
    requires forall x :: 0 <= x < |more| ==> more[x].op.addr == a
    ensures Along(run, front + [a], steps + more)
  {
    hide First;
    var order := front + [a];
    forall x | 0 <= x < |steps| ensures First(run, steps[x].op.addr) < First(run, a) {
      assert steps[x].op.addr in front;
      var p :| 0 <= p < |front| && front[p] == steps[x].op.addr;
      assert order[p] == front[p] && order[|front|] == a;
    }
  }

  lemma ByFirstBefore(run: seq<Op>, front: seq<int>, a: int)
    requires ByFirst(run, front + [a])
    ensures ByFirst(run, front)
  {
    hide First;
    var order := front + [a];
    assert forall p :: 0 <= p < |front| ==> front[p] == order[p];
  }

  lemma {:induction false} RunInOrder(run: seq<Op>, order: seq<int>)
    requires ByFirst(run, order)
    ensures Along(run, order, RunSteps(run, order))
  {
    hide GroupSteps, At, ByFirst, Along;
    if order == [] {
      NothingAlong(run);
    } else {
      var front, a := order[..|order| - 1], order[|order| - 1];
      assert order == front + [a];
      ByFirstBefore(run, front, a);
      RunInOrder(run, front);
      GroupOf(run, a);
      AlongNext(run, front, a, RunSteps(run, front), GroupSteps(At(run, a)));
    }
  }

  lemma NothingAlong(run: seq<Op>)
    ensures Along(run, [], [])
  {
  }

  /** The steps of a run: address by address in the order of their first reads, each as told. */
  lemma RunAsTold(run: seq<Op>)
    ensures InOrder(run, RunSteps(run, Order(run)))
    ensures forall a :: ReadsAsTold(run, a, On(RunSteps(run, Order(run)), a))
  {
    hide Order, RunSteps, GroupSteps, At, On, First, ReadsAsTold, InOrder;
    OrderFacts(run);
    OrderByFirst(run);
    RunInOrder(run, Order(run));
    forall a ensures ReadsAsTold(run, a, On(RunSteps(run, Order(run)), a)) {
      OnRun(run, Order(run), a);
      GroupAsTold(run, a);
      if a !in Order(run) { GroupOfNone(run, a); }
    }
  }

  lemma GroupOfNone(run: seq<Op>, a: int)
    requires First(run, a) >= |run|
    ensures GroupSteps(At(run, a)) == []
  {
    NothingAt(run, a);
  }

  // ---------------------------------------------------------------- the whole plan

  /** A read that is an acknowledgement of the write in front of it. */
  predicate Acknowledges(ops: seq<Op>, i: nat)
    requires i < |ops|
  {
    ops[i].kind.R? && Follows(ops, i, W) && AndNot(ops[i].value, ops[i - 1].value) != 0
  }

  /** The ops from `i` up to `j` are reads of which none acknowledges or is fused with, and they are all there are
      between a write or an acknowledgement and the next write or the read fused with it. */
  predicate IsRun(ops: seq<Op>, i: nat, j: nat) {
    && i < j <= |ops|
    && (forall k :: i <= k < j ==> ops[k].kind.R?)
    && !Acknowledges(ops, i) && (i == 0 || ops[i - 1].kind.W? || Acknowledges(ops, i - 1))
    && (j == |ops| || (ops[j].kind.W? && !Follows(ops, j, R))
        || (ops[j].kind.R? && j + 1 < |ops| && ops[j + 1].kind.W? && Follows(ops, j + 1, R)))
  }

  lemma {:induction false} ReadsEndIs(ops: seq<Op>, i: nat, j: nat)
    requires i <= j <= |ops| && (forall k :: i <= k < j ==> ops[k].kind.R?) && (j < |ops| ==> ops[j].kind.W?)
    ensures ReadsEnd(ops, i) == j
    decreases j - i
  {
    if i < j { ReadsEndIs(ops, i + 1, j); }
  }

  lemma RunHere(ops: seq<Op>, i: nat, j: nat)
    requires IsRun(ops, i, j)
    ensures PlanFrom(ops, i) == RunSteps(ops[i..j], Order(ops[i..j])) + PlanFrom(ops, j)
  {
    hide AndNot, RunSteps, Order;
    if j == |ops| || ops[j].kind.W? { ReadsEndIs(ops, i, j); } else { ReadsEndIs(ops, i, j + 1); }
  }

  lemma StopsAtRun(ops: seq<Op>, i: nat, j: nat)
    requires IsRun(ops, i, j)
    ensures EndsPlan(ops, i)
  {
    hide PlanFrom, AndNot;
    if i == 0 {
      assert Plan(ops) == [] + PlanFrom(ops, 0);
    } else if ops[i - 1].kind.W? {
      StopsBehindWrite(ops, i);
    } else {
      StopsBehindWrite(ops, i - 1);
      AckHere(ops, i - 1);
      var before :| Plan(ops) == before + PlanFrom(ops, i - 1);
      Regroup(before, [PollMask(ops[i - 1], AndNot(ops[i - 1].value, ops[i - 2].value))], PlanFrom(ops, i));
    }
  }

  /** Every such run has its own stretch of the plan, and its steps there are as told. */
  lemma ReadsPlanned(ops: seq<Op>, i: nat, j: nat) returns (before: seq<Step>, steps: seq<Step>, after: seq<Step>)
    requires IsRun(ops, i, j)
    ensures Plan(ops) == before + steps + after
    ensures InOrder(ops[i..j], steps) && forall a :: ReadsAsTold(ops[i..j], a, On(steps, a))
  {
    hide PlanFrom, RunSteps, Order, On, InOrder, ReadsAsTold;
    StopsAtRun(ops, i, j);
    RunHere(ops, i, j);
    RunAsTold(ops[i..j]);
    before :| Plan(ops) == before + PlanFrom(ops, i);
    steps, after := RunSteps(ops[i..j], Order(ops[i..j])), PlanFrom(ops, j);
    Regroup(before, steps, after);
  }
}
