/** The replay planner: a recorded list of register reads and writes becomes a list of replay steps. */
module TraceOps {
  import opened Mmio

  datatype Kind = R | W

  /** One line of the trace. */
  datatype Op = Op(line: nat, kind: Kind, width: nat, addr: int, value: bv64)

  /** What the replayer does for one or more trace lines. */
  datatype Step =
    | NakedWrite(op: Op, value: bv64)
    | Rmw(op: Op, set_: bv64, clr: bv64, expPre: Option<bv64>)
    | ReadCheck(op: Op, want: bv64)
    | PollMask(op: Op, mask: bv64)
    | PollVal(op: Op, target: bv64, count: nat)

  predicate SamePlace(a: Op, b: Op) {
    a.addr == b.addr && a.width == b.width
  }

  // ------------------------------------------------- which rule applies where

  /** A write right after a read of the same register. */
  predicate Fused(ops: seq<Op>, i: nat)
    requires i < |ops|
  {
    ops[i].kind.W? && i > 0 && ops[i - 1].kind.R? && SamePlace(ops[i - 1], ops[i])
  }

  /** A read right after a write to the same register, showing bits the write did not set. */
  predicate AckRead(ops: seq<Op>, i: nat)
    requires i < |ops|
  {
    ops[i].kind.R? && i > 0 && ops[i - 1].kind.W? && SamePlace(ops[i - 1], ops[i]) &&
    AndNot(ops[i].value, ops[i - 1].value) != 0
  }

  /** A read the next op fuses with. */
  predicate HandOff(ops: seq<Op>, i: nat)
    requires i < |ops|
  {
    ops[i].kind.R? && i + 1 < |ops| && Fused(ops, i + 1)
  }

  /** The end of the maximal run of reads from `i`. */
  function ReadsEnd(ops: seq<Op>, i: nat): (j: nat)
    requires i <= |ops|
    ensures i <= j <= |ops|
    ensures forall k :: i <= k < j ==> ops[k].kind.R?
    ensures j < |ops| ==> ops[j].kind.W?
    decreases |ops| - i
  {
    if i < |ops| && ops[i].kind.R? then ReadsEnd(ops, i + 1) else i
  }

  /** The same run without a last read that belongs to the next write. */
  function RunEnd(ops: seq<Op>, i: nat): (j: nat)
    requires i < |ops| && ops[i].kind.R?
    ensures i < j <= |ops|
  {
    var j := ReadsEnd(ops, i);
    assert ReadsEnd(ops, i) == ReadsEnd(ops, i + 1);
    if j < |ops| && j - i > 1 && SamePlace(ops[j - 1], ops[j]) then j - 1 else j
  }

  // -------------------------------------------------- grouping a run of reads

  /** The addresses of a run, each once, in order of first appearance. */
  function Order(run: seq<Op>): seq<int> {
    if run == [] then []
    else
      var seen := Order(run[..|run| - 1]);
      var a := run[|run| - 1].addr;
      if a in seen then seen else seen + [a]
  }

  /** The reads of a run at one address, in order. */
  function At(run: seq<Op>, a: int): (group: seq<Op>)
    ensures forall o :: o in group ==> o in run && o.addr == a
  {
    if run == [] then []
    else At(run[..|run| - 1], a) + (if run[|run| - 1].addr == a then [run[|run| - 1]] else [])
  }

  ghost predicate Differ(group: seq<Op>) {
    exists p, q :: 0 <= p < |group| && 0 <= q < |group| && group[p].value != group[q].value
  }

  ghost predicate Collapses(group: seq<Op>) {
    |group| >= 3 || (|group| >= 2 && Differ(group))
  }

  function Checks(group: seq<Op>): (steps: seq<Step>)
    ensures |steps| == |group|
    ensures forall k :: 0 <= k < |group| ==> steps[k] == ReadCheck(group[k], group[k].value)
  {
    seq(|group|, k requires 0 <= k < |group| => ReadCheck(group[k], group[k].value))
  }

  ghost function GroupSteps(group: seq<Op>): seq<Step> {
    if Collapses(group) then [PollVal(group[|group| - 1], group[|group| - 1].value, |group|)] else Checks(group)
  }

  ghost function RunSteps(run: seq<Op>, order: seq<int>): seq<Step> {
    if order == [] then []
    else RunSteps(run, order[..|order| - 1]) + GroupSteps(At(run, order[|order| - 1]))
  }

  /** A run of reads plans no write and no ack poll. */
  lemma {:induction false} RunStepsOnlyRead(run: seq<Op>, order: seq<int>)
    ensures forall k :: 0 <= k < |RunSteps(run, order)| ==>
      RunSteps(run, order)[k].ReadCheck? || RunSteps(run, order)[k].PollVal?
  {
    if order != [] { RunStepsOnlyRead(run, order[..|order| - 1]); }
  }

  // ------------------------------------------------------------------ the plan

  function WriteStep(ops: seq<Op>, i: nat): Step
    requires i < |ops| && ops[i].kind.W?
  {
    if Fused(ops, i)
    then Rmw(ops[i], AndNot(ops[i].value, ops[i - 1].value), AndNot(ops[i - 1].value, ops[i].value), Some(ops[i - 1].value))
    else NakedWrite(ops[i], ops[i].value)
  }

  /** The steps emitted when the planner stands at op `i`. */
  ghost function StepsAt(ops: seq<Op>, i: nat): seq<Step>
    requires i < |ops|
  {
    if ops[i].kind.W? then [WriteStep(ops, i)]
    else if AckRead(ops, i) then [PollMask(ops[i], AndNot(ops[i].value, ops[i - 1].value))]
    else if HandOff(ops, i) then []
    else RunSteps(ops[i..RunEnd(ops, i)], Order(ops[i..RunEnd(ops, i)]))
  }

  /** Where the planner stands next. */
  function NextAt(ops: seq<Op>, i: nat): (j: nat)
    requires i < |ops|
    ensures i < j <= |ops|
  {
    if ops[i].kind.W? || AckRead(ops, i) || HandOff(ops, i) then i + 1 else RunEnd(ops, i)
  }

  ghost function PlanFrom(ops: seq<Op>, i: nat): seq<Step>
    requires i <= |ops|
    decreases |ops| - i
  {
    if i == |ops| then [] else StepsAt(ops, i) + PlanFrom(ops, NextAt(ops, i))
  }

  ghost function Plan(ops: seq<Op>): seq<Step> {
    PlanFrom(ops, 0)
  }

  // ------------------------------------------------------- the planner's loops

  /** The grouping loop: a dictionary of reads by address and the order the addresses appeared in. */
  method GroupByAddr(run: seq<Op>) returns (byAddr: map<int, seq<Op>>, order: seq<int>)
    ensures order == Order(run)
    ensures forall a :: a in byAddr <==> a in order
    ensures forall a :: a in byAddr ==> byAddr[a] == At(run, a)
  {
    byAddr, order := map[], [];
    for k := 0 to |run|
      invariant order == Order(run[..k])
      invariant forall a :: a in byAddr <==> a in order
      invariant forall a :: a in byAddr ==> byAddr[a] == At(run[..k], a)
      invariant forall a :: a !in byAddr ==> At(run[..k], a) == []
    {
      var o := run[k];
      assert run[..k + 1][..k] == run[..k];
      if o.addr !in byAddr {
        byAddr := byAddr[o.addr := []];
        order := order + [o.addr];
      }
      byAddr := byAddr[o.addr := byAddr[o.addr] + [o]];
    }
    assert run[..|run|] == run;
  }

  lemma TwoElements<T>(s: set<T>, u: T, v: T)
    requires u in s && v in s && u != v
    ensures |s| > 1
  {
    var rest := s - {u};
    assert v in rest;
    assert s == {u} + rest;
  }

  lemma Singleton<T>(s: set<T>, u: T)
    requires forall v :: v in s ==> v == u
    ensures |s| <= 1
  {
    if s != {} { assert s == {u}; }
  }

  lemma ValueOf(group: seq<Op>, values: set<bv64>, p: nat)
    requires values == (set o | o in group :: o.value) && p < |group|
    ensures group[p].value in values
  {
    assert group[p] in group;
  }

  lemma ManyValues(group: seq<Op>, values: set<bv64>)
    requires values == set o | o in group :: o.value
    ensures |values| > 1 <==> Differ(group)
  {
    if Differ(group) {
      var p, q :| 0 <= p < |group| && 0 <= q < |group| && group[p].value != group[q].value;
      ValueOf(group, values, p);
      ValueOf(group, values, q);
      TwoElements(values, group[p].value, group[q].value);
    } else if group != [] {
      Singleton(values, group[0].value);
    }
  }

  lemma GroupsListed(run: seq<Op>, byAddr: map<int, seq<Op>>, order: seq<int>)
    requires forall a :: a in order ==> a in byAddr
    requires forall a :: a in byAddr ==> byAddr[a] == At(run, a)
    ensures forall g :: 0 <= g < |order| ==> order[g] in byAddr && byAddr[order[g]] == At(run, order[g])
  {
    forall g | 0 <= g < |order| ensures order[g] in byAddr {
      var a := order[g];
      assert a in order;
      assert a in byAddr;
    }
  }

  method EmitChecks(group: seq<Op>) returns (steps: seq<Step>)
    ensures steps == Checks(group)
  {
    steps := [];
    for k := 0 to |group|
      invariant steps == Checks(group)[..k]
    {
      steps := steps + [ReadCheck(group[k], group[k].value)];
    }
  }

  method EmitGroup(group: seq<Op>) returns (steps: seq<Step>)
    ensures steps == GroupSteps(group)
  {
    var values := set o | o in group :: o.value;
    ManyValues(group, values);
    if |group| >= 3 || (|group| >= 2 && |values| > 1) {
      var final := group[|group| - 1];
      steps := [PollVal(final, final.value, |group|)];
    } else {
      steps := EmitChecks(group);
    }
  }

  method EmitGroups(run: seq<Op>, byAddr: map<int, seq<Op>>, order: seq<int>) returns (steps: seq<Step>)
    requires forall g :: 0 <= g < |order| ==> order[g] in byAddr && byAddr[order[g]] == At(run, order[g])
    ensures steps == RunSteps(run, order)
  {
    steps := [];
    for g := 0 to |order|
      invariant steps == RunSteps(run, order[..g])
    {
      assert order[..g + 1][..g] == order[..g];
      var emitted := EmitGroup(byAddr[order[g]]);
      steps := steps + emitted;
    }
    assert order[..|order|] == order;
  }

  /** The maximal run of reads from `i`, less a last read that the next write fuses with. */
  method TakeRun(ops: seq<Op>, i: nat) returns (run: seq<Op>, j: nat)
    requires i < |ops| && ops[i].kind.R?
    ensures j == RunEnd(ops, i) && run == ops[i..j]
  {
    j := i;
    while j < |ops| && ops[j].kind.R?
      invariant i <= j <= |ops| && ReadsEnd(ops, j) == ReadsEnd(ops, i)
    {
      j := j + 1;
    }
    run := ops[i..j];
    if j < |ops| && ops[j].kind.W? && |run| > 1 &&
       run[|run| - 1].addr == ops[j].addr && run[|run| - 1].width == ops[j].width {
      run := run[..|run| - 1];
      j := j - 1;
    }
  }

  /** One turn of the planner's loop at op `i`: what it appends and where it stands next. */
  method PlanTurn(ops: seq<Op>, i: nat) returns (emitted: seq<Step>, j: nat)
    requires i < |ops|
    ensures emitted == StepsAt(ops, i) && j == NextAt(ops, i)
  {
    if ops[i].kind.W? {
      return [WriteStep(ops, i)], i + 1;
    }
    if AckRead(ops, i) {
      return [PollMask(ops[i], AndNot(ops[i].value, ops[i - 1].value))], i + 1;
    }
    if HandOff(ops, i) {
      return [], i + 1;
    }
    var run, next := TakeRun(ops, i);
    var byAddr, order := GroupByAddr(run);
    GroupsListed(run, byAddr, order);
    emitted := EmitGroups(run, byAddr, order);
    j := next;
  }

  method PlanSegment(ops: seq<Op>) returns (steps: seq<Step>)
    ensures steps == Plan(ops)
  {
    steps := [];
    var i := 0;
    while i < |ops|
      invariant 0 <= i <= |ops|
      invariant Plan(ops) == steps + PlanFrom(ops, i)
    {
      var emitted, j := PlanTurn(ops, i);
      assert steps + PlanFrom(ops, i) == (steps + emitted) + PlanFrom(ops, j);
      steps, i := steps + emitted, j;
    }
  }
}
