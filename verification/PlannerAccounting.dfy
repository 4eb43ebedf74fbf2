/** The planner loses no trace line and moves no read across a write. */
module PlannerAccounting {
  import opened Mmio
  import opened TraceOps

  /** What the trace lines behind a step must look like. */
  ghost predicate Explains(from: seq<Op>, s: Step) {
    match s
    case NakedWrite(op, value) => op.kind.W? && from == [op] && value == op.value
    case Rmw(op, _, _, pre) =>
      op.kind.W? && (from == [op] || (|from| == 2 && from[1] == op && from[0].kind.R? &&
                                     SamePlace(from[0], op) && pre == Some(from[0].value)))
    case ReadCheck(op, want) => op.kind.R? && from == [op] && want == op.value
    case PollMask(op, _) => op.kind.R? && from == [op]
    case PollVal(op, target, count) =>
      |from| == count && Collapses(from) && from[count - 1] == op && target == op.value &&
      forall k :: 0 <= k < count ==> from[k].kind.R? && from[k].addr == op.addr
  }

  ghost predicate AllExplained(froms: seq<seq<Op>>, steps: seq<Step>) {
    |froms| == |steps| && forall k :: 0 <= k < |steps| ==> Explains(froms[k], steps[k])
  }

  function Flat(froms: seq<seq<Op>>): seq<Op> {
    if froms == [] then [] else Flat(froms[..|froms| - 1]) + froms[|froms| - 1]
  }

  // ---------------------------------------- the trace lines behind each step

  function Singles(group: seq<Op>): (froms: seq<seq<Op>>)
    ensures |froms| == |group| && forall k :: 0 <= k < |group| ==> froms[k] == [group[k]]
  {
    seq(|group|, k requires 0 <= k < |group| => [group[k]])
  }

  ghost function GroupSources(group: seq<Op>): seq<seq<Op>> {
    if Collapses(group) then [group] else Singles(group)
  }

  ghost function RunSources(run: seq<Op>, order: seq<int>): seq<seq<Op>> {
    if order == [] then []
    else RunSources(run, order[..|order| - 1]) + GroupSources(At(run, order[|order| - 1]))
  }

  /** A read handed over to the write at `i`: read just before it and not already emitted as an ack poll. */
  function Carried(ops: seq<Op>, i: nat): seq<Op>
    requires i <= |ops|
  {
    if i < |ops| && Fused(ops, i) && !AckRead(ops, i - 1) then [ops[i - 1]] else []
  }

  ghost function SourcesAt(ops: seq<Op>, i: nat): seq<seq<Op>>
    requires i < |ops|
  {
    if ops[i].kind.W? then [Carried(ops, i) + [ops[i]]]
    else if AckRead(ops, i) then [[ops[i]]]
    else if HandOff(ops, i) then []
    else RunSources(ops[i..RunEnd(ops, i)], Order(ops[i..RunEnd(ops, i)]))
  }

  ghost function SourcesFrom(ops: seq<Op>, i: nat): seq<seq<Op>>
    requires i <= |ops|
    decreases |ops| - i
  {
    if i == |ops| then [] else SourcesAt(ops, i) + SourcesFrom(ops, NextAt(ops, i))
  }

  // ------------------------------------------------------------ one run of reads

  lemma {:induction false} FlatConcat(a: seq<seq<Op>>, b: seq<seq<Op>>)
    ensures Flat(a + b) == Flat(a) + Flat(b)
  {
    if b == [] {
      assert a + b == a;
    } else {
      FlatConcat(a, b[..|b| - 1]);
      assert (a + b)[..|a + b| - 1] == a + b[..|b| - 1];
    }
  }

  lemma {:induction false} FlatSingles(group: seq<Op>)
    ensures Flat(Singles(group)) == group
  {
    if group != [] {
      FlatSingles(group[..|group| - 1]);
      assert Singles(group)[..|group| - 1] == Singles(group[..|group| - 1]);
    }
  }

  lemma FlatGroup(group: seq<Op>)
    ensures Flat(GroupSources(group)) == group
  {
    FlatSingles(group);
    if Collapses(group) {
      assert Flat([group]) == Flat([]) + group;
    }
  }

  predicate Distinct(order: seq<int>) {
    forall p, q :: 0 <= p < q < |order| ==> order[p] != order[q]
  }

  lemma {:induction false} OrderFacts(run: seq<Op>)
    ensures Distinct(Order(run))
    ensures forall o :: o in run ==> o.addr in Order(run)
    ensures forall a :: a in Order(run) ==> At(run, a) != []
  {
    if run != [] {
      var init, last := run[..|run| - 1], run[|run| - 1];
      OrderFacts(init);
      assert run == init + [last];
      forall a | a in Order(run) ensures At(run, a) != [] {
        if a != last.addr { assert a in Order(init); }
      }
    }
  }

  /** All reads of the run whose address is listed, group after group. */
  function Regrouped(run: seq<Op>, order: seq<int>): seq<Op> {
    if order == [] then [] else Regrouped(run, order[..|order| - 1]) + At(run, order[|order| - 1])
  }

  lemma {:induction false} RegroupedEmpty(order: seq<int>)
    ensures Regrouped([], order) == []
  {
    if order != [] { RegroupedEmpty(order[..|order| - 1]); }
  }

  lemma AtSnoc(init: seq<Op>, o: Op, a: int)
    ensures At(init + [o], a) == At(init, a) + (if o.addr == a then [o] else [])
  {
    assert (init + [o])[..|init|] == init;
  }

  function OneIf(b: bool, o: Op): multiset<Op> {
    if b then multiset{o} else multiset{}
  }

  lemma {:induction false} RegroupedGrows(init: seq<Op>, o: Op, order: seq<int>)
    requires Distinct(order)
    ensures multiset(Regrouped(init + [o], order)) == multiset(Regrouped(init, order)) + OneIf(o.addr in order, o)
  {
    if order != [] {
      var before, a := order[..|order| - 1], order[|order| - 1];
      RegroupedGrows(init, o, before);
      AtSnoc(init, o, a);
      ListedOnce(order, o.addr);
    }
  }

  lemma ListedOnce(order: seq<int>, a: int)
    requires Distinct(order) && order != []
    ensures a in order <==> (a in order[..|order| - 1] || a == order[|order| - 1])
    ensures !(a in order[..|order| - 1] && a == order[|order| - 1])
  {
    assert order == order[..|order| - 1] + [order[|order| - 1]];
  }

  lemma OrderSnoc(run: seq<Op>, o: Op)
    ensures Order(run + [o]) == if o.addr in Order(run) then Order(run) else Order(run) + [o.addr]
  {
    assert (run + [o])[..|run|] == run;
  }

  lemma RegroupedNothing()
    ensures Order([]) == [] && Regrouped([], []) == []
  {
  }

  lemma RegroupedSnoc(run: seq<Op>, order: seq<int>, a: int)
    ensures Regrouped(run, order + [a]) == Regrouped(run, order) + At(run, a)
  {
    hide At;
    assert (order + [a])[..|order|] == order;
  }

  lemma {:induction false} RegroupedIsPermutation(run: seq<Op>)
    ensures multiset(Regrouped(run, Order(run))) == multiset(run)
  {
    hide Order, Regrouped, At;
    if run == [] {
      RegroupedNothing();
    } else {
      var init, last := run[..|run| - 1], run[|run| - 1];
      RegroupedIsPermutation(init);
      PermutationStep(init, last);
      assert run == init + [last];
    }
  }

  lemma PermutationStep(init: seq<Op>, last: Op)
    requires multiset(Regrouped(init, Order(init))) == multiset(init)
    ensures multiset(Regrouped(init + [last], Order(init + [last]))) == multiset(init + [last])
  {
    hide Order, Regrouped, At;
    OrderFacts(init);
    OrderSnoc(init, last);
    RegroupedGrows(init, last, Order(init));
    if last.addr !in Order(init) {
      RegroupedSnoc(init + [last], Order(init), last.addr);
      NothingAt(init, last.addr);
      AtSnoc(init, last, last.addr);
    }
  }

  lemma {:induction false} NothingAt(run: seq<Op>, a: int)
    requires forall o :: o in run ==> o.addr != a
    ensures At(run, a) == []
  {
    if run != [] { NothingAt(run[..|run| - 1], a); }
  }

  lemma {:induction false} FlatRun(run: seq<Op>, order: seq<int>)
    ensures Flat(RunSources(run, order)) == Regrouped(run, order)
  {
    if order != [] {
      var before, group := order[..|order| - 1], At(run, order[|order| - 1]);
      FlatRun(run, before);
      FlatConcat(RunSources(run, before), GroupSources(group));
      FlatGroup(group);
    }
  }

  lemma GroupExplained(group: seq<Op>, a: int)
    requires forall o :: o in group ==> o.kind.R? && o.addr == a
    ensures AllExplained(GroupSources(group), GroupSteps(group))
  {
    forall k | 0 <= k < |group| ensures group[k].kind.R? && group[k].addr == a {
      assert group[k] in group;
    }
  }

  lemma ExplainedConcat(f: seq<seq<Op>>, s: seq<Step>, f': seq<seq<Op>>, s': seq<Step>)
    requires AllExplained(f, s) && AllExplained(f', s')
    ensures AllExplained(f + f', s + s')
  {
  }

  lemma {:induction false} RunExplained(run: seq<Op>, order: seq<int>)
    requires forall o :: o in run ==> o.kind.R?
    ensures AllExplained(RunSources(run, order), RunSteps(run, order))
  {
    if order != [] {
      var before, a := order[..|order| - 1], order[|order| - 1];
      RunExplained(run, before);
      GroupExplained(At(run, a), a);
      ExplainedConcat(RunSources(run, before), RunSteps(run, before), GroupSources(At(run, a)), GroupSteps(At(run, a)));
    }
  }

  // --------------------------------------------------------------- whole traces

  lemma CarriedNext(ops: seq<Op>, i: nat)
    requires i < |ops|
    ensures Carried(ops, NextAt(ops, i)) ==
            if ops[i].kind.R? && !AckRead(ops, i) && HandOff(ops, i) then [ops[i]] else []
  {
  }

  lemma FlatOne(from: seq<Op>)
    ensures Flat([from]) == from
  {
    assert Flat([from]) == Flat([]) + from;
  }

  lemma WriteExplained(ops: seq<Op>, i: nat)
    requires i < |ops| && ops[i].kind.W?
    ensures Explains(Carried(ops, i) + [ops[i]], WriteStep(ops, i))
  {
  }

  lemma StepsAtExplained(ops: seq<Op>, i: nat)
    requires i < |ops|
    ensures AllExplained(SourcesAt(ops, i), StepsAt(ops, i))
  {
    if ops[i].kind.W? {
      WriteExplained(ops, i);
    } else if !AckRead(ops, i) && !HandOff(ops, i) {
      var run := ops[i..RunEnd(ops, i)];
      RunExplained(run, Order(run));
    }
  }

  lemma SourcesOfRun(ops: seq<Op>, i: nat, j: nat)
    requires i < j <= |ops|
    ensures multiset(Flat(RunSources(ops[i..j], Order(ops[i..j])))) == multiset(ops[i..j])
  {
    FlatRun(ops[i..j], Order(ops[i..j]));
    RegroupedIsPermutation(ops[i..j]);
  }

  lemma SourcesAtWrite(ops: seq<Op>, i: nat)
    requires i < |ops| && ops[i].kind.W?
    ensures Flat(SourcesAt(ops, i)) == Carried(ops, i) + ops[i..i + 1]
  {
    FlatOne(Carried(ops, i) + [ops[i]]);
    assert ops[i..i + 1] == [ops[i]];
  }

  lemma SourcesAtRead(ops: seq<Op>, i: nat)
    requires i < |ops| && ops[i].kind.R?
    ensures multiset(Flat(SourcesAt(ops, i)) + Carried(ops, NextAt(ops, i))) == multiset(ops[i..NextAt(ops, i)])
  {
    CarriedNext(ops, i);
    if AckRead(ops, i) {
      FlatOne([ops[i]]);
      assert Flat(SourcesAt(ops, i)) + [] == ops[i..i + 1];
    } else if HandOff(ops, i) {
      assert [] + [ops[i]] == ops[i..i + 1];
    } else {
      SourcesOfRun(ops, i, RunEnd(ops, i));
      assert Flat(SourcesAt(ops, i)) + [] == Flat(SourcesAt(ops, i));
    }
  }

  lemma SourcesAtComplete(ops: seq<Op>, i: nat)
    requires i < |ops|
    ensures multiset(Flat(SourcesAt(ops, i)) + Carried(ops, NextAt(ops, i))) ==
            multiset(Carried(ops, i) + ops[i..NextAt(ops, i)])
  {
    assert ops[i].kind.R? ==> Carried(ops, i) == [];
    hide SourcesAt, Carried;
    if ops[i].kind.W? {
      SourcesAtWrite(ops, i);
      CarriedNext(ops, i);
      assert Flat(SourcesAt(ops, i)) + [] == Flat(SourcesAt(ops, i));
    } else {
      SourcesAtRead(ops, i);
      assert [] + ops[i..NextAt(ops, i)] == ops[i..NextAt(ops, i)];
    }
  }

  /** Every trace line is behind exactly one step, and behind a step of the right kind. */
  lemma {:induction false} PlanFromExplained(ops: seq<Op>, i: nat)
    requires i <= |ops|
    ensures AllExplained(SourcesFrom(ops, i), PlanFrom(ops, i))
    decreases |ops| - i
  {
    if i < |ops| {
      var j := NextAt(ops, i);
      StepsAtExplained(ops, i);
      PlanFromExplained(ops, j);
      ExplainedConcat(SourcesAt(ops, i), StepsAt(ops, i), SourcesFrom(ops, j), PlanFrom(ops, j));
    }
  }

  lemma ChainParts(first: seq<Op>, rest: seq<Op>, mid: seq<Op>, here: seq<Op>, before: seq<Op>, after: seq<Op>)
    requires multiset(first + mid) == multiset(before + here)
    requires multiset(rest) == multiset(mid + after)
    ensures multiset(first + rest) == multiset(before + (here + after))
  {
    assert multiset(first + rest) == multiset(first + mid) + multiset(after);
    assert multiset(before + (here + after)) == multiset(before + here) + multiset(after);
  }

  lemma NothingLeft(ops: seq<Op>)
    ensures Carried(ops, |ops|) + ops[|ops|..] == [] == Flat([])
  {
  }

  lemma {:induction false} SourcesComplete(ops: seq<Op>, i: nat)
    requires i <= |ops|
    ensures multiset(Flat(SourcesFrom(ops, i))) == multiset(Carried(ops, i) + ops[i..])
    decreases |ops| - i
  {
    NothingLeft(ops);
    hide SourcesAt, Carried, NextAt, Flat;
    if i < |ops| {
      var j := NextAt(ops, i);
      SourcesAtComplete(ops, i);
      SourcesComplete(ops, j);
      FlatConcat(SourcesAt(ops, i), SourcesFrom(ops, j));
      ChainParts(Flat(SourcesAt(ops, i)), Flat(SourcesFrom(ops, j)), Carried(ops, j), ops[i..j], Carried(ops, i), ops[j..]);
      assert ops[i..] == ops[i..j] + ops[j..];
    }
  }

  /** Every trace line is behind exactly one step, and behind a step of the right kind. */
  lemma PlanLosesNothing(ops: seq<Op>)
    ensures AllExplained(SourcesFrom(ops, 0), Plan(ops))
    ensures multiset(Flat(SourcesFrom(ops, 0))) == multiset(ops)
  {
    PlanFromExplained(ops, 0);
    SourcesComplete(ops, 0);
    assert Carried(ops, 0) + ops[0..] == ops;
  }

  /** The steps that come from the ops in front of the write at `w`. */
  ghost function StepsBefore(ops: seq<Op>, i: nat, w: nat): seq<Step>
    requires i <= w < |ops| && ops[w].kind.W?
    decreases w - i
  {
    if i == w then [] else
      NextStopsAtWrite(ops, i, w);
      StepsAt(ops, i) + StepsBefore(ops, NextAt(ops, i), w)
  }

  ghost function SourcesBefore(ops: seq<Op>, i: nat, w: nat): seq<seq<Op>>
    requires i <= w < |ops| && ops[w].kind.W?
    decreases w - i
  {
    if i == w then [] else
      NextStopsAtWrite(ops, i, w);
      SourcesAt(ops, i) + SourcesBefore(ops, NextAt(ops, i), w)
  }

  lemma NextStopsAtWrite(ops: seq<Op>, i: nat, w: nat)
    requires i < w < |ops| && ops[w].kind.W?
    ensures NextAt(ops, i) <= w
  {
    if ops[i].kind.R? && !AckRead(ops, i) && !HandOff(ops, i) {
      assert ReadsEnd(ops, i) <= w;
    }
  }

  lemma Join<T>(a: seq<T>, b: seq<T>, c: seq<T>)
    ensures a + (b + c) == (a + b) + c
  {
  }

  lemma {:induction false} SplitAtWrite(ops: seq<Op>, i: nat, w: nat)
    requires i <= w < |ops| && ops[w].kind.W?
    ensures PlanFrom(ops, i) == StepsBefore(ops, i, w) + PlanFrom(ops, w)
    ensures SourcesFrom(ops, i) == SourcesBefore(ops, i, w) + SourcesFrom(ops, w)
    ensures |StepsBefore(ops, i, w)| == |SourcesBefore(ops, i, w)|
    decreases w - i
  {
    hide StepsAt, SourcesAt, NextAt, Explains;
    if i < w {
      NextStopsAtWrite(ops, i, w);
      var j := NextAt(ops, i);
      SplitAtWrite(ops, j, w);
      StepsAtExplained(ops, i);
      Join(StepsAt(ops, i), StepsBefore(ops, j, w), PlanFrom(ops, w));
      Join(SourcesAt(ops, i), SourcesBefore(ops, j, w), SourcesFrom(ops, w));
    }
  }

  lemma Middle<T>(all: seq<T>, before: seq<T>, first: T, rest: seq<T>)
    requires all == before + ([first] + rest)
    ensures |before| < |all| && all[|before|] == first
    ensures all[|before| + 1..] == rest
  {
  }

  /** A write's own step parts the plan: the steps up to it come from exactly the lines up to the write,
      the steps after it from exactly the lines after. */
  lemma NoReadCrossesAWrite(ops: seq<Op>, w: nat)
    requires w < |ops| && ops[w].kind.W?
    ensures var k, plan, froms := |StepsBefore(ops, 0, w)|, Plan(ops), SourcesFrom(ops, 0);
      && k < |plan| == |froms|
      && plan[k] == WriteStep(ops, w)
      && multiset(Flat(froms[..k + 1])) == multiset(ops[..w + 1])
      && multiset(Flat(froms[k + 1..])) == multiset(ops[w + 1..])
  {
    hide *;
    PlanLosesNothing(ops);
    SourcesAfter(ops, w);
    StepOfWrite(ops, w);
    var k, froms := |StepsBefore(ops, 0, w)|, SourcesFrom(ops, 0);
    FlatParts(froms, k + 1);
    assert ops == ops[..w + 1] + ops[w + 1..];
    SameRest(Flat(froms[..k + 1]), ops[..w + 1], Flat(froms[k + 1..]), ops[w + 1..]);
  }

  lemma WriteHere(ops: seq<Op>, w: nat)
    requires w < |ops| && ops[w].kind.W?
    ensures PlanFrom(ops, w) == [WriteStep(ops, w)] + PlanFrom(ops, w + 1)
    ensures SourcesFrom(ops, w) == [Carried(ops, w) + [ops[w]]] + SourcesFrom(ops, w + 1)
  {
    hide WriteStep, Carried;
  }

  lemma PlanAtWrite(ops: seq<Op>, w: nat)
    requires w < |ops| && ops[w].kind.W?
    ensures |StepsBefore(ops, 0, w)| < |Plan(ops)| && Plan(ops)[|StepsBefore(ops, 0, w)|] == WriteStep(ops, w)
  {
    hide PlanFrom, SourcesFrom, StepsBefore, SourcesBefore, WriteStep, Carried;
    SplitAtWrite(ops, 0, w);
    WriteHere(ops, w);
    Middle(Plan(ops), StepsBefore(ops, 0, w), WriteStep(ops, w), PlanFrom(ops, w + 1));
  }

  lemma SourcesAtWriteOf(ops: seq<Op>, w: nat)
    requires w < |ops| && ops[w].kind.W?
    ensures |StepsBefore(ops, 0, w)| < |SourcesFrom(ops, 0)|
    ensures SourcesFrom(ops, 0)[|StepsBefore(ops, 0, w)| + 1..] == SourcesFrom(ops, w + 1)
  {
    hide *;
    SplitAtWrite(ops, 0, w);
    WriteHere(ops, w);
    Middle(SourcesFrom(ops, 0), SourcesBefore(ops, 0, w), Carried(ops, w) + [ops[w]], SourcesFrom(ops, w + 1));
  }

  lemma StepOfWrite(ops: seq<Op>, w: nat)
    requires w < |ops| && ops[w].kind.W?
    ensures var k, plan, froms := |StepsBefore(ops, 0, w)|, Plan(ops), SourcesFrom(ops, 0);
      && k < |plan| == |froms|
      && plan[k] == WriteStep(ops, w)
      && froms[k + 1..] == SourcesFrom(ops, w + 1)
  {
    PlanFromExplained(ops, 0);
    hide PlanFrom, SourcesFrom, StepsBefore, SourcesBefore, WriteStep, Carried, Explains;
    PlanAtWrite(ops, w);
    SourcesAtWriteOf(ops, w);
  }

  lemma SourcesAfter(ops: seq<Op>, w: nat)
    requires w < |ops| && ops[w].kind.W?
    ensures multiset(Flat(SourcesFrom(ops, w + 1))) == multiset(ops[w + 1..])
  {
    SourcesComplete(ops, w + 1);
    CarriedNext(ops, w);
    assert Carried(ops, w + 1) + ops[w + 1..] == ops[w + 1..];
  }

  lemma SameRest(a: seq<Op>, a': seq<Op>, b: seq<Op>, b': seq<Op>)
    requires multiset(a + b) == multiset(a' + b') && multiset(b) == multiset(b')
    ensures multiset(a) == multiset(a')
  {
    assert multiset(a) == multiset(a + b) - multiset(b);
  }

  lemma FlatParts(froms: seq<seq<Op>>, k: nat)
    requires k <= |froms|
    ensures Flat(froms) == Flat(froms[..k]) + Flat(froms[k..])
  {
    hide Flat;
    FlatConcat(froms[..k], froms[k..]);
    assert froms == froms[..k] + froms[k..];
  }
}
