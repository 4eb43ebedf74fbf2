/** Where a trace may be cut: planning the parts and planning the whole give the same steps. */
module PlannerCuts {
  import opened Mmio
  import opened TraceOps
  import opened PlannerRuns

  /** The boundary between the last op of one part and the first of the next. */
  predicate SafeBoundary(a: Op, b: Op) {
    match (a.kind, b.kind)
    case (W, W) => true
    case (W, R) => !(SamePlace(a, b) && AndNot(b.value, a.value) != 0)
    case (R, W) => !SamePlace(a, b)
    case (R, R) => false
  }

  predicate SafeCut(a: seq<Op>, b: seq<Op>) {
    a == [] || b == [] || SafeBoundary(a[|a| - 1], b[0])
  }

  /** Nothing behind the cut looks at what is in front of it. */
  predicate Blind(a: seq<Op>, b: seq<Op>) {
    SafeCut(a, b) || (a != [] && b != [] && a[|a| - 1].kind.R? && b[0].kind.R?)
  }

  // ------------------------------------------------------- in front of the cut

  lemma {:induction false} ReadsEndBefore(a: seq<Op>, b: seq<Op>, i: nat)
    requires i <= |a| && a != [] && b != []
    requires a[|a| - 1].kind.W? || b[0].kind.W?
    ensures ReadsEnd(a + b, i) == ReadsEnd(a, i) || (i == |a| && b[0].kind.R?)
    decreases |a| - i
  {
    if i < |a| && a[i].kind.R? {
      ReadsEndBefore(a, b, i + 1);
    }
  }

  lemma RulesBefore(a: seq<Op>, b: seq<Op>, i: nat)
    requires a != [] && b != [] && SafeCut(a, b) && i < |a|
    ensures Fused(a + b, i) == Fused(a, i) && AckRead(a + b, i) == AckRead(a, i)
    ensures HandOff(a + b, i) == HandOff(a, i)
    ensures a[i].kind.R? ==> RunEnd(a + b, i) == RunEnd(a, i)
  {
    hide AndNot;
    if a[i].kind.R? {
      ReadsEndBefore(a, b, i);
    }
  }

  lemma SliceInFront(a: seq<Op>, b: seq<Op>, i: nat, j: nat)
    requires i <= j <= |a|
    ensures (a + b)[i..j] == a[i..j]
  {
  }

  lemma SliceBehind(a: seq<Op>, b: seq<Op>, i: nat, j: nat)
    requires i <= j <= |b|
    ensures (a + b)[|a| + i..|a| + j] == b[i..j]
  {
  }

  lemma ChunkBefore(a: seq<Op>, b: seq<Op>, i: nat)
    requires a != [] && b != [] && SafeCut(a, b) && i < |a|
    ensures NextAt(a + b, i) == NextAt(a, i)
    ensures StepsAt(a + b, i) == StepsAt(a, i)
  {
    RulesBefore(a, b, i);
    hide AndNot, Fused, AckRead, HandOff, RunEnd, RunSteps, Order;
    if a[i].kind.R? { SliceInFront(a, b, i, RunEnd(a, i)); }
  }

  lemma {:induction false} PlanBefore(a: seq<Op>, b: seq<Op>, i: nat)
    requires a != [] && b != [] && SafeCut(a, b) && i <= |a|
    ensures PlanFrom(a + b, i) == PlanFrom(a, i) + PlanFrom(a + b, |a|)
    decreases |a| - i
  {
    hide StepsAt, NextAt;
    if i < |a| {
      ChunkBefore(a, b, i);
      PlanBefore(a, b, NextAt(a, i));
    }
  }

  // ---------------------------------------------------------- behind the cut

  lemma {:induction false} ReadsEndBehind(a: seq<Op>, b: seq<Op>, i: nat)
    requires i <= |b|
    ensures ReadsEnd(a + b, |a| + i) == |a| + ReadsEnd(b, i)
    decreases |b| - i
  {
    if i < |b| && b[i].kind.R? {
      ReadsEndBehind(a, b, i + 1);
    }
  }

  lemma RulesBehind(a: seq<Op>, b: seq<Op>, i: nat)
    requires i < |b| && (Blind(a, b) || i > 0)
    ensures Fused(a + b, |a| + i) == Fused(b, i) && AckRead(a + b, |a| + i) == AckRead(b, i)
    ensures HandOff(a + b, |a| + i) == HandOff(b, i)
    ensures b[i].kind.R? ==> RunEnd(a + b, |a| + i) == |a| + RunEnd(b, i)
  {
    hide AndNot;
    if b[i].kind.R? {
      ReadsEndBehind(a, b, i);
    }
  }

  /** The steps emitted at an op depend on the op, its predecessor and the run it starts, not on where they stand. */
  lemma SameChunk(p: seq<Op>, i: nat, q: seq<Op>, j: nat)
    requires i < |p| && j < |q| && p[i] == q[j]
    requires Fused(p, i) == Fused(q, j) && AckRead(p, i) == AckRead(q, j) && HandOff(p, i) == HandOff(q, j)
    requires i > 0 && j > 0 ==> p[i - 1] == q[j - 1]
    requires i == 0 || j == 0 ==> !Fused(p, i) && !AckRead(p, i)
    requires p[i].kind.R? ==> RunEnd(p, i) - i == RunEnd(q, j) - j && p[i..RunEnd(p, i)] == q[j..RunEnd(q, j)]
    ensures NextAt(p, i) - i == NextAt(q, j) - j
    ensures StepsAt(p, i) == StepsAt(q, j)
  {
    hide AndNot, HandOff, RunEnd, RunSteps, Order;
  }

  lemma ChunkBehind(a: seq<Op>, b: seq<Op>, i: nat)
    requires i < |b| && (Blind(a, b) || i > 0)
    ensures NextAt(a + b, |a| + i) == |a| + NextAt(b, i)
    ensures StepsAt(a + b, |a| + i) == StepsAt(b, i)
  {
    RulesBehind(a, b, i);
    hide RunSteps, Order;
    if b[i].kind.R? { SliceBehind(a, b, i, RunEnd(b, i)); }
    assert i == 0 ==> !Fused(b, i) && !AckRead(b, i);
    hide NextAt, StepsAt, AndNot, Fused, AckRead, HandOff, RunEnd;
    SameChunk(a + b, |a| + i, b, i);
  }

  lemma {:induction false} PlanBehind(a: seq<Op>, b: seq<Op>, i: nat)
    requires i <= |b| && (Blind(a, b) || i > 0)
    ensures PlanFrom(a + b, |a| + i) == PlanFrom(b, i)
    decreases |b| - i
  {
    hide StepsAt, NextAt;
    if i < |b| {
      ChunkBehind(a, b, i);
      PlanBehind(a, b, NextAt(b, i));
    }
  }

  /** Cutting at a safe boundary does not change the plan. */
  lemma PlanComposes(a: seq<Op>, b: seq<Op>)
    requires SafeCut(a, b)
    ensures Plan(a + b) == Plan(a) + Plan(b)
  {
    EmptyPlan();
    hide PlanFrom, SafeBoundary;
    if a == [] {
      assert a + b == b;
    } else if b == [] {
      assert a + b == a;
    } else {
      PlanBefore(a, b, 0);
      PlanBehind(a, b, 0);
    }
  }

  lemma EmptyPlan()
    ensures Plan([]) == []
  {
  }

  // ------------------------------------------------ unsafe boundaries change it

  /** The ops whose rule looks back at the op before them. */
  predicate LooksBack(ops: seq<Op>, k: nat)
    requires k < |ops|
  {
    Fused(ops, k) || AckRead(ops, k)
  }

  function CountLooksBack(ops: seq<Op>, i: nat): nat
    requires i <= |ops|
    decreases |ops| - i
  {
    if i == |ops| then 0 else (if LooksBack(ops, i) then 1 else 0) + CountLooksBack(ops, i + 1)
  }

  /** The steps that carry what the op before showed. */
  function Marks(steps: seq<Step>): nat {
    if steps == [] then 0
    else Marks(steps[..|steps| - 1]) + (if steps[|steps| - 1].Rmw? || steps[|steps| - 1].PollMask? then 1 else 0)
  }

  lemma {:induction false} MarksConcat(s: seq<Step>, t: seq<Step>)
    ensures Marks(s + t) == Marks(s) + Marks(t)
  {
    if t == [] {
      assert s + t == s;
    } else {
      MarksConcat(s, t[..|t| - 1]);
      assert (s + t)[..|s + t| - 1] == s + t[..|t| - 1];
    }
  }

  lemma {:induction false} NoMarks(steps: seq<Step>)
    requires forall k :: 0 <= k < |steps| ==> steps[k].ReadCheck? || steps[k].PollVal?
    ensures Marks(steps) == 0
  {
    if steps != [] { NoMarks(steps[..|steps| - 1]); }
  }

  lemma {:induction false} CountInRun(ops: seq<Op>, i: nat, j: nat)
    requires i <= j <= |ops|
    requires forall k :: i <= k < j ==> !LooksBack(ops, k)
    ensures CountLooksBack(ops, i) == CountLooksBack(ops, j)
    decreases j - i
  {
    hide LooksBack;
    if i < j { CountInRun(ops, i + 1, j); }
  }

  lemma RunLooksForward(ops: seq<Op>, i: nat)
    requires i < |ops| && ops[i].kind.R? && !AckRead(ops, i)
    ensures forall k :: i <= k < RunEnd(ops, i) ==> !LooksBack(ops, k)
  {
    hide AndNot;
  }

  lemma MarksAt(ops: seq<Op>, i: nat)
    requires i < |ops|
    ensures Marks(StepsAt(ops, i)) + CountLooksBack(ops, NextAt(ops, i)) == CountLooksBack(ops, i)
  {
    hide AndNot;
    if ops[i].kind.W? || AckRead(ops, i) {
      MarksConcat([], StepsAt(ops, i));
    } else if HandOff(ops, i) {
    } else {
      hide RunEnd, RunSteps, Order;
      var run := ops[i..RunEnd(ops, i)];
      RunStepsOnlyRead(run, Order(run));
      NoMarks(RunSteps(run, Order(run)));
      RunLooksForward(ops, i);
      CountInRun(ops, i, RunEnd(ops, i));
    }
  }

  lemma {:induction false} MarksOfPlan(ops: seq<Op>, i: nat)
    requires i <= |ops|
    ensures Marks(PlanFrom(ops, i)) == CountLooksBack(ops, i)
    decreases |ops| - i
  {
    hide StepsAt, NextAt, LooksBack;
    if i < |ops| {
      MarksAt(ops, i);
      MarksOfPlan(ops, NextAt(ops, i));
      MarksConcat(StepsAt(ops, i), PlanFrom(ops, NextAt(ops, i)));
    }
  }

  lemma {:induction false} CountBehind(a: seq<Op>, b: seq<Op>, i: nat)
    requires 0 < i <= |b|
    ensures CountLooksBack(a + b, |a| + i) == CountLooksBack(b, i)
    decreases |b| - i
  {
    if i < |b| {
      hide AndNot;
      CountBehind(a, b, i + 1);
    }
  }

  lemma {:induction false} CountBefore(a: seq<Op>, b: seq<Op>, i: nat)
    requires i <= |a|
    ensures CountLooksBack(a + b, i) == CountLooksBack(a, i) + CountLooksBack(a + b, |a|)
    decreases |a| - i
  {
    if i < |a| {
      hide AndNot;
      CountBefore(a, b, i + 1);
    }
  }

  lemma CountStep(ops: seq<Op>, i: nat)
    requires i < |ops|
    ensures CountLooksBack(ops, i) == (if LooksBack(ops, i) then 1 else 0) + CountLooksBack(ops, i + 1)
  {
  }

  /** At an unsafe boundary the joined list has one step more that looks back. */
  lemma UnsafeDiffers(a: seq<Op>, b: seq<Op>)
    requires a != [] && b != [] && (a[|a| - 1].kind.W? || b[0].kind.W?)
    requires !SafeBoundary(a[|a| - 1], b[0])
    ensures Plan(a + b) != Plan(a) + Plan(b)
  {
    hide PlanFrom, LooksBack, SafeBoundary, Marks, CountLooksBack;
    UnsafeLooksBack(a, b);
    MarksOfPlan(a + b, 0);
    MarksOfPlan(a, 0);
    MarksOfPlan(b, 0);
    MarksConcat(Plan(a), Plan(b));
    CountBefore(a, b, 0);
    CountBehind(a, b, 1);
    CountStep(a + b, |a|);
    CountStep(b, 0);
  }

  /** Unless both sides of the boundary are reads, the safe cuts are exactly the ones that compose. */
  lemma WriteCutIff(a: seq<Op>, b: seq<Op>)
    requires a != [] && b != [] && (a[|a| - 1].kind.W? || b[0].kind.W?)
    ensures Plan(a + b) == Plan(a) + Plan(b) <==> SafeBoundary(a[|a| - 1], b[0])
  {
    hide PlanFrom, SafeBoundary;
    if SafeBoundary(a[|a| - 1], b[0]) {
      PlanComposes(a, b);
    } else {
      UnsafeDiffers(a, b);
    }
  }

  lemma UnsafeLooksBack(a: seq<Op>, b: seq<Op>)
    requires a != [] && b != [] && (a[|a| - 1].kind.W? || b[0].kind.W?)
    requires !SafeBoundary(a[|a| - 1], b[0])
    ensures LooksBack(a + b, |a|) && !LooksBack(b, 0)
  {
    hide AndNot;
  }

  // ------------------------------------------------------- cuts between two reads

  /** Where the run of reads at the end of the list starts that the planner takes at once. */
  function TailStart(a: seq<Op>): (t: nat)
    ensures t <= |a|
  {
    if a == [] || a[|a| - 1].kind.W? || AckRead(a, |a| - 1) then |a| else TailStart(a[..|a| - 1])
  }

  function Tail(a: seq<Op>): seq<Op> {
    Slice(a, TailStart(a), |a|)
  }

  lemma {:induction false} TailFacts(a: seq<Op>)
    ensures var t := TailStart(a);
      && (forall k :: t <= k < |a| ==> a[k].kind.R?)
      && (t < |a| ==> !AckRead(a, t))
      && (t > 0 ==> a[t - 1].kind.W? || AckRead(a, t - 1))
  {
    hide AndNot;
    if !(a == [] || a[|a| - 1].kind.W? || AckRead(a, |a| - 1)) {
      var front := a[..|a| - 1];
      TailFacts(front);
      assert forall k :: 0 <= k < |front| ==> front[k] == a[k];
    }
  }

  /** The steps emitted from op `i` on up to the tail. */
  ghost function StepsUpTo(a: seq<Op>, i: nat, t: nat): seq<Step>
    requires i <= |a|
    decreases |a| - i
  {
    if i >= t || i == |a| then [] else StepsAt(a, i) + StepsUpTo(a, NextAt(a, i), t)
  }

  lemma {:induction false} ReadsEndUpTo(a: seq<Op>, b: seq<Op>, i: nat, w: nat)
    requires i <= w < |a| && a[w].kind.W?
    ensures ReadsEnd(a + b, i) == ReadsEnd(a, i) <= w
    decreases w - i
  {
    if i < w && a[i].kind.R? { ReadsEndUpTo(a, b, i + 1, w); }
  }

  /** In front of the tail the planner does the same whether or not more reads follow. */
  lemma ChunkUpTo(a: seq<Op>, b: seq<Op>, i: nat)
    requires b != [] && b[0].kind.R? && i < TailStart(a)
    ensures NextAt(a + b, i) == NextAt(a, i) <= TailStart(a)
    ensures StepsAt(a + b, i) == StepsAt(a, i)
  {
    var t := TailStart(a);
    TailFacts(a);
    hide AndNot, TailStart;
    assert Fused(a + b, i) == Fused(a, i) && AckRead(a + b, i) == AckRead(a, i);
    assert HandOff(a + b, i) == HandOff(a, i);
    if a[i].kind.R? && !AckRead(a, i) && !HandOff(a, i) {
      var w := if a[t - 1].kind.W? then t - 1 else t - 2;
      ReadsEndUpTo(a, b, i, w);
      hide RunSteps, Order;
      assert RunEnd(a + b, i) == RunEnd(a, i) <= t;
      SliceInFront(a, b, i, RunEnd(a, i));
    }
  }

  lemma {:induction false} PlanUpTo(a: seq<Op>, b: seq<Op>, i: nat)
    requires b != [] && b[0].kind.R? && i <= TailStart(a)
    ensures var t := TailStart(a);
      && PlanFrom(a + b, i) == StepsUpTo(a, i, t) + PlanFrom(a + b, t)
      && PlanFrom(a, i) == StepsUpTo(a, i, t) + PlanFrom(a, t)
    decreases |a| - i
  {
    hide StepsAt, NextAt, TailStart;
    if i < TailStart(a) {
      ChunkUpTo(a, b, i);
      PlanUpTo(a, b, NextAt(a, i));
    }
  }

  lemma {:induction false} ReadsEndThrough(a: seq<Op>, b: seq<Op>, i: nat)
    requires i <= |a| && forall k :: i <= k < |a| ==> a[k].kind.R?
    ensures ReadsEnd(a + b, i) == |a| + ReadsEnd(b, 0) && ReadsEnd(a, i) == |a|
    decreases |a| - i
  {
    if i < |a| {
      ReadsEndThrough(a, b, i + 1);
    } else {
      ReadsEndBehind(a, b, 0);
    }
  }

  function Slice(ops: seq<Op>, i: nat, j: nat): seq<Op>
    requires i <= j <= |ops|
  {
    ops[i..j]
  }

  /** The run of reads that the planner takes at op `i`. */
  function RunAt(ops: seq<Op>, i: nat): seq<Op>
    requires i < |ops| && ops[i].kind.R?
  {
    Slice(ops, i, RunEnd(ops, i))
  }

  /** A run that the planner takes at once. */
  lemma RunHere(ops: seq<Op>, i: nat)
    requires i < |ops| && ops[i].kind.R? && !AckRead(ops, i) && !HandOff(ops, i)
    ensures PlanFrom(ops, i) == RunPlan(RunAt(ops, i)) + PlanFrom(ops, RunEnd(ops, i))
  {
    hide AckRead, HandOff, RunEnd, RunSteps, Order;
  }

  lemma RunEndIs(ops: seq<Op>, i: nat)
    requires i < |ops| && ops[i].kind.R?
    ensures var j := ReadsEnd(ops, i);
      i < j <= |ops| && RunEnd(ops, i) == if j < |ops| && j - i > 1 && SamePlace(ops[j - 1], ops[j]) then j - 1 else j
  {
    assert ReadsEnd(ops, i) == ReadsEnd(ops, i + 1);
  }

  lemma TailRule(a: seq<Op>)
    requires TailStart(a) < |a|
    ensures var t := TailStart(a);
      a[t].kind.R? && !AckRead(a, t) && !HandOff(a, t) && ReadsEnd(a, t) == |a|
  {
    var t := TailStart(a);
    TailFacts(a);
    hide AndNot, TailStart;
    ReadsEndThrough(a, [], t);
  }

  /** The tail alone is one run, up to its end. */
  lemma TailAlone(a: seq<Op>)
    requires TailStart(a) < |a|
    ensures PlanFrom(a, TailStart(a)) == RunPlan(Tail(a))
  {
    hide *;
    var t := TailStart(a);
    TailRule(a);
    RunEndIs(a, t);
    RunHere(a, t);
    RunAtIs(a, t);
    TailIs(a);
    NothingPlanned(a);
  }

  lemma TailIs(a: seq<Op>)
    ensures Tail(a) == Slice(a, TailStart(a), |a|)
  {
  }

  lemma RunAtIs(ops: seq<Op>, i: nat)
    requires i < |ops| && ops[i].kind.R?
    ensures RunAt(ops, i) == Slice(ops, i, RunEnd(ops, i))
  {
  }

  /** What the reads at the front of the next part are joined with. */
  function Head(b: seq<Op>): seq<Op>
    requires b != [] && b[0].kind.R?
  {
    if HandOff(b, 0) then [] else b[..RunEnd(b, 0)]
  }

  lemma TailRules(a: seq<Op>, b: seq<Op>)
    requires TailStart(a) < |a| && b != [] && b[0].kind.R?
    ensures var t := TailStart(a);
      (a + b)[t].kind.R? && !AckRead(a + b, t) && !HandOff(a + b, t) && ReadsEnd(a + b, t) == |a| + ReadsEnd(b, 0)
  {
    var t := TailStart(a);
    TailFacts(a);
    hide AndNot, TailStart;
    ReadsEndThrough(a, b, t);
    assert (a + b)[t] == a[t];
  }

  /** The head is the run of reads at the front, less a last read that the next write fuses with. */
  lemma HeadLength(b: seq<Op>)
    requires b != [] && b[0].kind.R?
    ensures var e := ReadsEnd(b, 0);
      1 <= e <= |b| && |Head(b)| == if e < |b| && SamePlace(b[e - 1], b[e]) then e - 1 else e
  {
    hide AndNot;
    assert ReadsEnd(b, 0) == ReadsEnd(b, 1);
    if 1 < |b| && b[1].kind.W? { assert ReadsEnd(b, 1) == 1; }
  }

  lemma Behind(a: seq<Op>, b: seq<Op>, k: nat)
    requires k < |b|
    ensures (a + b)[|a| + k] == b[k]
  {
  }

  lemma TailEnd(a: seq<Op>, b: seq<Op>)
    requires TailStart(a) < |a| && b != [] && b[0].kind.R?
    ensures (a + b)[TailStart(a)].kind.R? && RunEnd(a + b, TailStart(a)) == |a| + |Head(b)|
  {
    hide *;
    TailRules(a, b);
    RunEndIs(a + b, TailStart(a));
    HeadLength(b);
    var e := ReadsEnd(b, 0);
    Behind(a, b, e - 1);
    if e < |b| { Behind(a, b, e); }
  }

  /** The tail and the head of the next part. */
  function Joined(a: seq<Op>, b: seq<Op>): seq<Op>
    requires b != [] && b[0].kind.R?
  {
    Tail(a) + Head(b)
  }

  lemma SliceJoin(a: seq<Op>, b: seq<Op>, t: nat, h: nat)
    requires t <= |a| && h <= |b|
    ensures Slice(a + b, t, |a| + h) == Slice(a, t, |a|) + Slice(b, 0, h)
  {
  }

  lemma JoinedIs(a: seq<Op>, b: seq<Op>)
    requires b != [] && b[0].kind.R?
    ensures |Head(b)| <= |b| && Head(b) == Slice(b, 0, |Head(b)|)
    ensures Joined(a, b) == Slice(a, TailStart(a), |a|) + Head(b)
  {
    HeadPrefix(b);
    TailIs(a);
    hide Head, TailStart;
  }

  lemma RunAtTail(a: seq<Op>, b: seq<Op>)
    requires TailStart(a) < |a| && b != [] && b[0].kind.R?
    ensures (a + b)[TailStart(a)].kind.R? && RunAt(a + b, TailStart(a)) == Joined(a, b)
  {
    hide *;
    TailEnd(a, b);
    RunAtIs(a + b, TailStart(a));
    JoinedIs(a, b);
    SliceJoin(a, b, TailStart(a), |Head(b)|);
  }

  /** The run in the joined list is the tail and the head. */
  lemma TailJoined(a: seq<Op>, b: seq<Op>)
    requires TailStart(a) < |a| && b != [] && b[0].kind.R?
    ensures Head(b) <= b
    ensures PlanFrom(a + b, TailStart(a)) == RunPlan(Joined(a, b)) + PlanFrom(a + b, |a| + |Head(b)|)
  {
    hide *;
    TailRules(a, b);
    TailEnd(a, b);
    HeadPrefix(b);
    RunHere(a + b, TailStart(a));
    RunAtTail(a, b);
  }

  lemma HeadPrefix(b: seq<Op>)
    requires b != [] && b[0].kind.R?
    ensures Head(b) <= b
  {
    hide RunEnd, HandOff;
  }

  lemma HeadFirst(b: seq<Op>)
    requires b != [] && b[0].kind.R?
    ensures PlanFrom(b, 0) == RunPlan(Head(b)) + PlanFrom(b, |Head(b)|)
    ensures |Head(b)| <= |b|
  {
    NoStepsFor([]);
    hide AndNot, RunSteps, Order;
    if !HandOff(b, 0) {
      assert b[0..RunEnd(b, 0)] == b[..RunEnd(b, 0)];
    }
  }

  lemma NoStepsFor(order: seq<int>)
    requires order == []
    ensures RunPlan([]) == []
  {
  }

  lemma CancelBoth(x: seq<Step>, y: seq<Step>, y': seq<Step>, z: seq<Step>)
    ensures x + (y + z) == x + (y' + z) <==> y == y'
  {
    var u, v := x + (y + z), x + (y' + z);
    if u == v {
      assert |y| == |y'|;
      assert u[|x|..|x| + |y|] == y && v[|x|..|x| + |y'|] == y';
    }
  }

  lemma Decide(x: seq<Step>, joined: seq<Step>, g: seq<Step>, h: seq<Step>, rest: seq<Step>)
    ensures x + (joined + rest) == (x + g) + (h + rest) <==> joined == g + h
  {
    CancelBoth(x, joined, g + h, rest);
    Regroup(x, g, h, rest);
  }

  lemma EmptyTail(a: seq<Op>)
    requires TailStart(a) == |a|
    ensures Tail(a) == [] && RunPlan(Tail(a)) == [] == PlanFrom(a, TailStart(a))
  {
    NoStepsFor([]);
    NothingPlanned(a);
    hide PlanFrom, RunPlan, TailStart;
  }

  lemma EmptyJoin(a: seq<Op>, b: seq<Op>)
    requires TailStart(a) == |a| && b != [] && b[0].kind.R?
    ensures Joined(a, b) == Head(b)
  {
    hide Head, TailStart;
    assert Tail(a) == [];
  }

  lemma PlanOfFirst(a: seq<Op>, b: seq<Op>)
    requires b != [] && b[0].kind.R?
    ensures Plan(a) == StepsUpTo(a, 0, TailStart(a)) + RunPlan(Tail(a))
  {
    hide PlanFrom, RunPlan, TailStart, Tail, StepsUpTo;
    PlanUpTo(a, b, 0);
    if TailStart(a) == |a| { EmptyTail(a); } else { TailAlone(a); }
  }

  lemma PlanOfJoined(a: seq<Op>, b: seq<Op>)
    requires a != [] && b != [] && a[|a| - 1].kind.R? && b[0].kind.R?
    ensures |Head(b)| <= |b|
    ensures Plan(a + b) == StepsUpTo(a, 0, TailStart(a)) + (RunPlan(Joined(a, b)) + PlanFrom(b, |Head(b)|))
  {
    hide PlanFrom, RunPlan, TailStart, Tail, StepsUpTo, Head, Joined;
    PlanUpTo(a, b, 0);
    HeadFirst(b);
    if TailStart(a) == |a| {
      EmptyJoin(a, b);
      PlanBehind(a, b, 0);
    } else {
      TailJoined(a, b);
      PlanBehind(a, b, |Head(b)|);
    }
  }

  /** A cut between two reads composes exactly when the run it splits is planned in the same steps by halves. */
  lemma ReadCutIff(a: seq<Op>, b: seq<Op>)
    requires a != [] && b != [] && a[|a| - 1].kind.R? && b[0].kind.R?
    ensures Plan(a + b) == Plan(a) + Plan(b) <==> Apart(Tail(a), Head(b)) || MeetOnce(Tail(a), Head(b))
  {
    hide PlanFrom, RunPlan, TailStart, Tail, Apart, MeetOnce, Head, StepsUpTo;
    PlanOfFirst(a, b);
    PlanOfJoined(a, b);
    HeadFirst(b);
    RunsComposeIff(Tail(a), Head(b));
    Decide(StepsUpTo(a, 0, TailStart(a)), RunPlan(Joined(a, b)), RunPlan(Tail(a)), RunPlan(Head(b)),
           PlanFrom(b, |Head(b)|));
  }

  lemma NothingPlanned(a: seq<Op>)
    ensures PlanFrom(a, |a|) == []
  {
  }

  lemma Regroup(x: seq<Step>, y: seq<Step>, y': seq<Step>, z: seq<Step>)
    ensures (x + y) + (y' + z) == x + ((y + y') + z)
  {
  }

  /** The cuts that compose. Between two reads: the run at the end of the first part, empty behind an ack poll, and the
      run at the start of the second, empty when its read is handed over to a write, share no address, or meet in one
      equal read each. */
  ghost predicate Composes(a: seq<Op>, b: seq<Op>) {
    if a == [] || b == [] then true
    else if a[|a| - 1].kind.R? && b[0].kind.R? then Apart(Tail(a), Head(b)) || MeetOnce(Tail(a), Head(b))
    else SafeBoundary(a[|a| - 1], b[0])
  }

  /** Cutting a list leaves its plan the same exactly at these cuts. */
  lemma CutComposesIff(a: seq<Op>, b: seq<Op>)
    ensures Plan(a + b) == Plan(a) + Plan(b) <==> Composes(a, b)
  {
    if a == [] || b == [] {
      PlanComposes(a, b);
    } else if a[|a| - 1].kind.R? && b[0].kind.R? {
      ReadCutIff(a, b);
    } else {
      WriteCutIff(a, b);
    }
  }

  lemma OneRead(x: Op)
    requires x.kind.R?
    ensures Tail([x]) == [x] && Head([x]) == [x] && Order([x]) == [x.addr] && At([x], x.addr) == [x]
  {
    hide AndNot;
    assert [x][..0] == [] && TailStart([x]) == 0;
    assert ReadsEnd([x], 0) == ReadsEnd([x], 1) == 1;
    assert [x][..1] == [x];
  }

  lemma NotMeeting(ra: seq<Op>, rb: seq<Op>, s: int)
    requires Order(ra) == [s] == Order(rb) && |At(ra, s)| == 1 && |At(rb, s)| == 1
    requires At(ra, s)[0].value != At(rb, s)[0].value
    ensures !Apart(ra, rb) && !MeetOnce(ra, rb)
  {
    hide Order, At;
    var order := [s];
    assert order[0] in order;
  }

  lemma DifferingReadsDoNotMeet(x: Op, y: Op)
    requires x.kind.R? && y.kind.R? && x.addr == y.addr && x.value != y.value
    ensures !Composes([x], [y])
  {
    OneRead(x);
    OneRead(y);
    hide Tail, Head, Order, At, Apart, MeetOnce;
    NotMeeting([x], [y], x.addr);
  }

  /** For example, two reads of one register that differ are checked apart and polled for together. */
  lemma ReadReadCutCanDiffer(x: Op, y: Op)
    requires x.kind.R? && y.kind.R? && x.addr == y.addr && x.value != y.value
    ensures Plan([x] + [y]) != Plan([x]) + Plan([y])
  {
    hide *;
    DifferingReadsDoNotMeet(x, y);
    CutComposesIff([x], [y]);
  }

  // -------------------------------------------------------- the trace segments

  /** The ops on trace lines `lo` to `hi`. */
  function Lines(ops: seq<Op>, lo: nat, hi: nat): seq<Op> {
    if ops == [] then []
    else
      var o := ops[|ops| - 1];
      Lines(ops[..|ops| - 1], lo, hi) + (if lo <= o.line <= hi then [o] else [])
  }

  datatype Segment = Preamble | PhyIp | Port0 | Port2 | Enumeration

  function SegmentOps(ops: seq<Op>, name: Segment): seq<Op>
    requires ops != []
  {
    match name
    case Preamble => Lines(ops, 1, 34)
    case PhyIp => Lines(ops, 35, 390)
    case Port0 => Lines(ops, 391, 816)
    case Port2 => Lines(ops, 817, 1253)
    case Enumeration => Lines(ops, 1254, ops[|ops| - 1].line)
  }

  /** The parser numbers the lines of the file. */
  ghost predicate Numbered(ops: seq<Op>) {
    forall i, j :: 0 <= i < j < |ops| ==> ops[i].line < ops[j].line
  }

  ghost predicate HasOp(ops: seq<Op>, line: nat, kind: Kind, addr: int) {
    exists i :: 0 <= i < |ops| && ops[i].line == line && ops[i].kind == kind && ops[i].addr == addr
  }

  lemma LinesOfNone(lo: nat, hi: nat)
    ensures Lines([], lo, hi) == []
  {
  }

  lemma LinesLast(ops: seq<Op>, lo: nat, hi: nat)
    requires ops != []
    ensures var o := ops[|ops| - 1];
      Lines(ops, lo, hi) == Lines(ops[..|ops| - 1], lo, hi) + (if lo <= o.line <= hi then [o] else [])
  {
  }

  lemma {:induction false} LinesSplit(ops: seq<Op>, lo: nat, mid: nat, hi: nat)
    requires Numbered(ops) && lo <= mid + 1 && mid <= hi
    ensures Lines(ops, lo, hi) == Lines(ops, lo, mid) + Lines(ops, mid + 1, hi)
  {
    hide Lines;
    if ops == [] {
      LinesOfNone(lo, hi);
      LinesOfNone(lo, mid);
      LinesOfNone(mid + 1, hi);
    } else {
      var init, o := ops[..|ops| - 1], ops[|ops| - 1];
      LinesSplit(init, lo, mid, hi);
      LinesLast(ops, lo, hi);
      LinesLast(ops, lo, mid);
      LinesLast(ops, mid + 1, hi);
      if lo <= o.line <= mid {
        NoLinesAbove(init, mid + 1, hi);
      }
    }
  }

  lemma {:induction false} NoLinesAbove(ops: seq<Op>, lo: nat, hi: nat)
    requires forall i :: 0 <= i < |ops| ==> ops[i].line < lo
    ensures Lines(ops, lo, hi) == []
  {
    if ops != [] { NoLinesAbove(ops[..|ops| - 1], lo, hi); }
  }

  lemma {:induction false} LastLine(ops: seq<Op>, lo: nat, hi: nat, kind: Kind, addr: int)
    requires Numbered(ops) && lo <= hi && HasOp(ops, hi, kind, addr)
    ensures var part := Lines(ops, lo, hi);
      part != [] && part[|part| - 1].kind == kind && part[|part| - 1].addr == addr
  {
    var i :| 0 <= i < |ops| && ops[i].line == hi && ops[i].kind == kind && ops[i].addr == addr;
    if i < |ops| - 1 {
      assert ops[..|ops| - 1][i] == ops[i];
      LastLine(ops[..|ops| - 1], lo, hi, kind, addr);
    }
  }

  lemma {:induction false} FirstLine(ops: seq<Op>, lo: nat, hi: nat, kind: Kind, addr: int)
    requires Numbered(ops) && lo <= hi && HasOp(ops, lo, kind, addr)
    ensures var part := Lines(ops, lo, hi);
      part != [] && part[0].kind == kind && part[0].addr == addr
  {
    var i :| 0 <= i < |ops| && ops[i].line == lo && ops[i].kind == kind && ops[i].addr == addr;
    if i < |ops| - 1 {
      assert ops[..|ops| - 1][i] == ops[i];
      FirstLine(ops[..|ops| - 1], lo, hi, kind, addr);
    } else {
      NoLinesAbove(ops[..|ops| - 1], lo, hi);
    }
  }

  lemma {:induction false} AllLines(ops: seq<Op>, lo: nat, hi: nat)
    requires forall i :: 0 <= i < |ops| ==> lo <= ops[i].line <= hi
    ensures Lines(ops, lo, hi) == ops
  {
    if ops != [] {
      AllLines(ops[..|ops| - 1], lo, hi);
      assert ops == ops[..|ops| - 1] + [ops[|ops| - 1]];
    }
  }

  lemma LinesPart(ops: seq<Op>, last: nat)
    requires Numbered(ops) && last >= 1253 && forall i :: 0 <= i < |ops| ==> 1 <= ops[i].line <= last
    ensures ops == Lines(ops, 1, 34) + Lines(ops, 35, 390) + Lines(ops, 391, 816) + Lines(ops, 817, 1253)
                   + Lines(ops, 1254, last)
  {
    AllLines(ops, 1, last);
    hide Lines, Numbered;
    LinesSplit(ops, 1, 1253, last);
    LinesSplit(ops, 1, 816, 1253);
    LinesSplit(ops, 1, 390, 816);
    LinesSplit(ops, 1, 34, 390);
  }

  /** The five segments part the trace: no line is left out, none is in two. */
  lemma SegmentsPart(ops: seq<Op>)
    requires ops != [] && Numbered(ops) && ops[0].line >= 1 && ops[|ops| - 1].line >= 1253
    ensures ops == SegmentOps(ops, Preamble) + SegmentOps(ops, PhyIp) + SegmentOps(ops, Port0) + SegmentOps(ops, Port2)
                   + SegmentOps(ops, Enumeration)
  {
    var last := ops[|ops| - 1].line;
    assert forall i :: 0 <= i < |ops| ==> 1 <= ops[i].line <= last;
    hide Lines, Numbered;
    LinesPart(ops, last);
  }

  /** Replaying the four bring-up segments one after the other is replaying lines 1 to 1253 in one go,
      given only the six trace lines at their borders. */
  lemma SegmentsCompose(ops: seq<Op>)
    requires ops != [] && Numbered(ops)
    requires HasOp(ops, 34, W, 0x497008004) && HasOp(ops, 35, R, 0x497040038)
    requires HasOp(ops, 390, R, 0x494000058) && HasOp(ops, 391, W, 0x490028088)
    requires HasOp(ops, 816, W, 0x49002b87c) && HasOp(ops, 817, W, 0x492028088)
    ensures Plan(Lines(ops, 1, 1253)) ==
            Plan(SegmentOps(ops, Preamble)) + Plan(SegmentOps(ops, PhyIp)) +
            Plan(SegmentOps(ops, Port0)) + Plan(SegmentOps(ops, Port2))
  {
    hide Lines, Plan, Numbered, HasOp;
    LinesSplit(ops, 1, 816, 1253);
    LinesSplit(ops, 1, 390, 816);
    LinesSplit(ops, 1, 34, 390);
    LastLine(ops, 1, 34, W, 0x497008004);
    FirstLine(ops, 35, 390, R, 0x497040038);
    PlanComposes(Lines(ops, 1, 34), Lines(ops, 35, 390));
    LastLine(ops, 1, 390, R, 0x494000058);
    FirstLine(ops, 391, 816, W, 0x490028088);
    PlanComposes(Lines(ops, 1, 390), Lines(ops, 391, 816));
    LastLine(ops, 1, 816, W, 0x49002b87c);
    FirstLine(ops, 817, 1253, W, 0x492028088);
    PlanComposes(Lines(ops, 1, 816), Lines(ops, 817, 1253));
  }
}
