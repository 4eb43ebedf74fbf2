/** When grouping two runs of reads separately and grouping them as one run give the same steps. */
module PlannerRuns {
  import opened Mmio
  import opened TraceOps
  import opened PlannerAccounting

  /** The steps planned for a run of reads. */
  ghost function RunPlan(run: seq<Op>): seq<Step> {
    RunSteps(run, Order(run))
  }

  /** No address is read in both runs. */
  ghost predicate Apart(ra: seq<Op>, rb: seq<Op>) {
    forall a :: a in Order(ra) ==> a !in Order(rb)
  }

  /** The runs share one address only, the last to appear in the first run and the first in the second; each reads it
      once, with the same value. */
  ghost predicate MeetOnce(ra: seq<Op>, rb: seq<Op>) {
    var oa, ob := Order(ra), Order(rb);
    oa != [] && ob != [] &&
    var s := oa[|oa| - 1];
    && ob[0] == s && (forall a :: a in oa && a in ob ==> a == s)
    && |At(ra, s)| == 1 && |At(rb, s)| == 1 && At(ra, s)[0].value == At(rb, s)[0].value
  }

  // ------------------------------------------------------------- the joined run

  /** The addresses not seen before. */
  function Fresh(seen: seq<int>, order: seq<int>): seq<int> {
    if order == [] then []
    else
      var a := order[|order| - 1];
      Fresh(seen, order[..|order| - 1]) + (if a in seen then [] else [a])
  }

  lemma {:induction false} FreshIs(seen: seq<int>, order: seq<int>)
    ensures forall a :: a in Fresh(seen, order) <==> a in order && a !in seen
  {
    if order != [] {
      FreshIs(seen, order[..|order| - 1]);
      assert order == order[..|order| - 1] + [order[|order| - 1]];
    }
  }

  lemma {:induction false} FreshAll(seen: seq<int>, order: seq<int>)
    requires forall a :: a in order ==> a !in seen
    ensures Fresh(seen, order) == order
  {
    if order != [] {
      var front, a := order[..|order| - 1], order[|order| - 1];
      assert order == front + [a];
      assert a in order && forall b :: b in front ==> b in order;
      FreshAll(seen, front);
    }
  }

  lemma FreshSnoc(seen: seq<int>, order: seq<int>, a: int)
    ensures Fresh(seen, order + [a]) == Fresh(seen, order) + (if a in seen then [] else [a])
  {
    assert (order + [a])[..|order|] == order;
  }

  lemma OrderNothing(seen: seq<int>)
    ensures Order([]) == [] && Fresh(seen, []) == []
  {
  }

  lemma FreshStep(oa: seq<int>, ob: seq<int>, a: int)
    ensures var s := oa + Fresh(oa, ob);
      (if a in s then s else s + [a]) == oa + Fresh(oa, if a in ob then ob else ob + [a])
  {
    FreshIs(oa, ob);
    FreshSnoc(oa, ob, a);
    hide Fresh;
    assert a in oa + Fresh(oa, ob) <==> a in oa || a in ob;
  }

  lemma {:induction false} OrderConcat(ra: seq<Op>, rb: seq<Op>)
    ensures Order(ra + rb) == Order(ra) + Fresh(Order(ra), Order(rb))
  {
    hide Order, Fresh;
    if rb == [] {
      OrderNothing(Order(ra));
      assert ra + rb == ra;
    } else {
      var init, o := rb[..|rb| - 1], rb[|rb| - 1];
      OrderConcat(ra, init);
      assert rb == init + [o] && ra + rb == (ra + init) + [o];
      OrderSnoc(init, o);
      OrderSnoc(ra + init, o);
      FreshStep(Order(ra), Order(init), o.addr);
    }
  }

  lemma AtNothing(a: int)
    ensures At([], a) == []
  {
  }

  lemma {:induction false} AtConcat(ra: seq<Op>, rb: seq<Op>, a: int)
    ensures At(ra + rb, a) == At(ra, a) + At(rb, a)
  {
    hide At;
    if rb == [] {
      AtNothing(a);
      assert ra + rb == ra;
    } else {
      var init, o := rb[..|rb| - 1], rb[|rb| - 1];
      AtConcat(ra, init, a);
      assert rb == init + [o] && ra + rb == (ra + init) + [o];
      AtSnoc(init, o, a);
      AtSnoc(ra + init, o, a);
    }
  }

  lemma AtNone(run: seq<Op>, a: int)
    requires a !in Order(run)
    ensures At(run, a) == []
  {
    OrderFacts(run);
    hide Order, At;
    NothingAt(run, a);
  }

  lemma {:induction false} StepsConcat(run: seq<Op>, o1: seq<int>, o2: seq<int>)
    ensures RunSteps(run, o1 + o2) == RunSteps(run, o1) + RunSteps(run, o2)
  {
    hide At, GroupSteps;
    if o2 == [] {
      assert o1 + o2 == o1;
    } else {
      StepsConcat(run, o1, o2[..|o2| - 1]);
      assert (o1 + o2)[..|o1 + o2| - 1] == o1 + o2[..|o2| - 1];
    }
  }

  lemma {:induction false} StepsSame(run: seq<Op>, run': seq<Op>, order: seq<int>)
    requires forall a :: a in order ==> At(run, a) == At(run', a)
    ensures RunSteps(run, order) == RunSteps(run', order)
  {
    hide At, GroupSteps;
    if order != [] {
      assert order[|order| - 1] in order;
      StepsSame(run, run', order[..|order| - 1]);
    }
  }

  lemma StepsOfOne(run: seq<Op>, a: int)
    ensures RunSteps(run, [a]) == GroupSteps(At(run, a))
  {
    hide At, GroupSteps;
    assert [a][..0] == [];
    assert RunSteps(run, []) == [];
  }

  /** The part of the joined run's plan for addresses that only one of the runs reads. */
  lemma OnlyFirst(ra: seq<Op>, rb: seq<Op>, order: seq<int>)
    requires forall a :: a in order ==> a !in Order(rb)
    ensures RunSteps(ra + rb, order) == RunSteps(ra, order)
  {
    hide Order, At;
    forall a | a in order ensures At(ra + rb, a) == At(ra, a) {
      AtConcat(ra, rb, a);
      AtNone(rb, a);
    }
    StepsSame(ra + rb, ra, order);
  }

  lemma OnlySecond(ra: seq<Op>, rb: seq<Op>, order: seq<int>)
    requires forall a :: a in order ==> a !in Order(ra)
    ensures RunSteps(ra + rb, order) == RunSteps(rb, order)
  {
    hide Order, At;
    forall a | a in order ensures At(ra + rb, a) == At(rb, a) {
      AtConcat(ra, rb, a);
      AtNone(ra, a);
    }
    StepsSame(ra + rb, rb, order);
  }

  // ------------------------------------------------------------- one group

  /** A group that grows is planned differently. */
  lemma GroupGrows(g: seq<Op>, h: seq<Op>)
    requires g != [] && h != []
    ensures GroupSteps(g + h) != GroupSteps(g)
  {
    assert Checks(g)[0] == ReadCheck(g[0], g[0].value);
  }

  /** Two groups are planned apart as together exactly when they are one equal read each. */
  lemma GroupsMeetIff(g: seq<Op>, h: seq<Op>)
    requires g != [] && h != []
    ensures GroupSteps(g + h) == GroupSteps(g) + GroupSteps(h) <==> |g| == |h| == 1 && g[0].value == h[0].value
  {
    GroupNonEmpty(g);
    GroupNonEmpty(h);
    var gh := g + h;
    if |g| == |h| == 1 {
      assert gh[0] == g[0] && gh[1] == h[0];
      if g[0].value != h[0].value { assert gh[0].value != gh[1].value; }
    } else {
      assert Collapses(gh);
    }
  }

  lemma GroupNonEmpty(g: seq<Op>)
    requires g != []
    ensures GroupSteps(g) != []
  {
  }

  ghost predicate AllAt(steps: seq<Step>, a: int) {
    forall k :: 0 <= k < |steps| ==> steps[k].op.addr == a
  }

  lemma GroupAddr(run: seq<Op>, a: int)
    ensures AllAt(GroupSteps(At(run, a)), a)
    ensures At(run, a) != [] ==> GroupSteps(At(run, a)) != []
  {
    var g := At(run, a);
    assert forall k :: 0 <= k < |g| ==> g[k] in g;
    hide At;
  }

  /** The steps do not begin with one at the address. */
  predicate Elsewhere(steps: seq<Step>, a: int) {
    steps == [] || steps[0].op.addr != a
  }

  lemma StepsBegin(run: seq<Op>, order: seq<int>, a: int)
    requires order != [] && At(run, order[0]) != [] && order[0] != a
    ensures RunSteps(run, order) != [] && Elsewhere(RunSteps(run, order), a)
  {
    hide At, GroupSteps, RunSteps;
    assert order == [order[0]] + order[1..];
    StepsConcat(run, [order[0]], order[1..]);
    StepsOfOne(run, order[0]);
    GroupAddr(run, order[0]);
  }

  /** The leading steps at one address are determined. */
  lemma Leading(x: seq<Step>, y: seq<Step>, x': seq<Step>, y': seq<Step>, a: int)
    requires x + y == x' + y' && AllAt(x, a) && AllAt(x', a) && Elsewhere(y, a) && Elsewhere(y', a)
    ensures x == x'
  {
    var all := x + y;
    assert forall k :: 0 <= k < |x| ==> all[k] == x[k];
    assert forall k :: 0 <= k < |x'| ==> all[k] == x'[k];
    if y != [] { assert all[|x|] == y[0]; }
    if y' != [] { assert all[|x'|] == y'[0]; }
    assert |x| == |x'|;
  }

  // ------------------------------------------------------------- two runs

  lemma ApartComposes(ra: seq<Op>, rb: seq<Op>)
    requires Apart(ra, rb)
    ensures RunPlan(ra + rb) == RunPlan(ra) + RunPlan(rb)
  {
    hide Order, At, RunSteps, Fresh;
    OrderConcat(ra, rb);
    FreshAll(Order(ra), Order(rb));
    StepsConcat(ra + rb, Order(ra), Order(rb));
    OnlyFirst(ra, rb, Order(ra));
    OnlySecond(ra, rb, Order(rb));
  }

  lemma InFront(order: seq<int>, k: nat)
    requires Distinct(order) && k < |order|
    ensures order == order[..k] + [order[k]] + order[k + 1..]
    ensures order[k] !in order[..k] && order[k] !in order[k + 1..]
    ensures forall a :: a in order[..k] || a in order[k + 1..] ==> a in order
  {
  }

  /** The joined plan split at the `k`-th address of the first run. */
  lemma JoinedAt(ra: seq<Op>, rb: seq<Op>, k: nat)
    requires k < |Order(ra)| && forall j :: 0 <= j < k ==> Order(ra)[j] !in Order(rb)
    ensures var oa, s := Order(ra), Order(ra)[k];
      RunPlan(ra + rb) == RunSteps(ra, oa[..k]) + GroupSteps(At(ra, s) + At(rb, s))
                          + RunSteps(ra + rb, oa[k + 1..] + Fresh(oa, Order(rb)))
  {
    hide At, RunSteps, Fresh, GroupSteps;
    var oa := Order(ra);
    OrderFacts(ra);
    hide Order;
    OrderConcat(ra, rb);
    InFront(oa, k);
    var rest := oa[k + 1..] + Fresh(oa, Order(rb));
    assert oa + Fresh(oa, Order(rb)) == (oa[..k] + [oa[k]]) + rest;
    StepsConcat(ra + rb, oa[..k] + [oa[k]], rest);
    StepsConcat(ra + rb, oa[..k], [oa[k]]);
    OnlyFirst(ra, rb, oa[..k]);
    StepsOfOne(ra + rb, oa[k]);
    AtConcat(ra, rb, oa[k]);
  }

  lemma SplitAt(run: seq<Op>, k: nat)
    requires k < |Order(run)|
    ensures var o := Order(run);
      RunPlan(run) == RunSteps(run, o[..k]) + GroupSteps(At(run, o[k])) + RunSteps(run, o[k + 1..])
  {
    hide At, RunSteps, GroupSteps, Order;
    var o := Order(run);
    assert o == (o[..k] + [o[k]]) + o[k + 1..];
    StepsConcat(run, o[..k] + [o[k]], o[k + 1..]);
    StepsConcat(run, o[..k], [o[k]]);
    StepsOfOne(run, o[k]);
  }

  lemma Associate(a: seq<Step>, b: seq<Step>, c: seq<Step>, d: seq<Step>)
    ensures (a + (b + c)) + d == (a + b) + (c + d)
  {
  }

  lemma MeetComposes(ra: seq<Op>, rb: seq<Op>)
    requires MeetOnce(ra, rb)
    ensures RunPlan(ra + rb) == RunPlan(ra) + RunPlan(rb)
  {
    hide At, RunSteps, GroupSteps, Fresh, RunPlan;
    var oa, ob := Order(ra), Order(rb);
    var k := |oa| - 1;
    var s := oa[k];
    OrderFacts(ra);
    OrderFacts(rb);
    hide Order;
    InFront(oa, k);
    InFront(ob, 0);
    forall j | 0 <= j < k ensures oa[j] !in ob { assert oa[j] in oa; }
    JoinedAt(ra, rb, k);
    SplitAt(ra, k);
    SplitAt(rb, 0);
    FreshBehind(oa, ob);
    GroupsMeetIff(At(ra, s), At(rb, s));
    assert oa[k + 1..] == [] && ob[..0] == [] && [] + ob[1..] == ob[1..];
    NoSteps(ra);
    NoSteps(rb);
    OnlySecond(ra, rb, ob[1..]);
    Associate(RunSteps(ra, oa[..k]), GroupSteps(At(ra, s)), GroupSteps(At(rb, s)), RunSteps(rb, ob[1..]));
    Padding(RunSteps(ra, oa[..k]), GroupSteps(At(ra, s)), GroupSteps(At(rb, s)), RunSteps(rb, ob[1..]));
  }

  lemma Padding(a: seq<Step>, b: seq<Step>, c: seq<Step>, d: seq<Step>)
    ensures (a + b + []) + ([] + c + d) == (a + b) + (c + d)
  {
  }

  lemma NoSteps(run: seq<Op>)
    ensures RunSteps(run, []) == []
  {
  }

  lemma FreshBehind(oa: seq<int>, ob: seq<int>)
    requires oa != [] && ob != [] && ob[0] == oa[|oa| - 1] && Distinct(ob)
    requires forall a :: a in oa && a in ob ==> a == ob[0]
    ensures Fresh(oa, ob) == ob[1..]
    ensures forall a :: a in ob[1..] ==> a !in oa
  {
    forall a | a in ob[1..] ensures a !in oa {
      var i :| 1 <= i < |ob| && ob[i] == a;
      assert ob[i] in ob && ob[0] != ob[i];
    }
    FreshHead(oa, ob[0], ob[1..]);
    FreshAll(oa, ob[1..]);
    assert ob == [ob[0]] + ob[1..];
  }

  lemma {:induction false} FreshHead(seen: seq<int>, a: int, order: seq<int>)
    requires a in seen
    ensures Fresh(seen, [a] + order) == Fresh(seen, order)
  {
    if order == [] {
      assert [a] + order == [] + [a];
      FreshSnoc(seen, [], a);
    } else {
      var front, b := order[..|order| - 1], order[|order| - 1];
      FreshHead(seen, a, front);
      assert [a] + order == ([a] + front) + [b] && order == front + [b];
      FreshSnoc(seen, [a] + front, b);
      FreshSnoc(seen, front, b);
    }
  }

  /** The first address of the first run that the second reads too. */
  lemma FirstShared(oa: seq<int>, ob: seq<int>) returns (k: nat)
    requires exists a :: a in oa && a in ob
    ensures k < |oa| && oa[k] in ob && forall j :: 0 <= j < k ==> oa[j] !in ob
  {
    k := 0;
    while oa[k] !in ob
      invariant k < |oa| && forall j :: 0 <= j < k ==> oa[j] !in ob
      invariant exists j :: k <= j < |oa| && oa[j] in ob
      decreases |oa| - k
    {
      k := k + 1;
    }
  }

  lemma CancelFront(x: seq<Step>, y: seq<Step>, z: seq<Step>)
    requires x + y == x + z
    ensures y == z
  {
    assert (x + y)[|x|..] == y && (x + z)[|x|..] == z;
  }

  /** Where the runs first share an address, equal plans leave no choice. */
  lemma SharedIsMeeting(ra: seq<Op>, rb: seq<Op>, k: nat)
    requires RunPlan(ra + rb) == RunPlan(ra) + RunPlan(rb)
    requires k < |Order(ra)| && Order(ra)[k] in Order(rb) && forall j :: 0 <= j < k ==> Order(ra)[j] !in Order(rb)
    ensures k == |Order(ra)| - 1 && Order(rb)[0] == Order(ra)[k]
    ensures var s := Order(ra)[k];
      |At(ra, s)| == 1 && |At(rb, s)| == 1 && At(ra, s)[0].value == At(rb, s)[0].value
  {
    hide At, RunSteps, GroupSteps, Fresh, RunPlan;
    var oa, ob := Order(ra), Order(rb);
    var s := oa[k];
    OrderFacts(ra);
    OrderFacts(rb);
    hide Order;
    var g, h := At(ra, s), At(rb, s);
    var x, q := RunSteps(ra, oa[..k]), oa[k + 1..];
    var y := RunSteps(ra + rb, q + Fresh(oa, ob));
    JoinedAt(ra, rb, k);
    SplitAt(ra, k);
    Associate3(x, GroupSteps(g + h), y);
    Associate4(x, GroupSteps(g), RunSteps(ra, q), RunPlan(rb));
    CancelFront(x, GroupSteps(g + h) + y, GroupSteps(g) + (RunSteps(ra, q) + RunPlan(rb)));
    JoinedRestElsewhere(ra, rb, k);
    AtConcat(ra, rb, s);
    GroupAddr(ra + rb, s);
    GroupAddr(ra, s);
    GroupAddr(rb, s);
    if q != [] || ob[0] != s {
      RestElsewhere(ra, rb, k);
      Leading(GroupSteps(g + h), y, GroupSteps(g), RunSteps(ra, q) + RunPlan(rb), s);
      GroupGrows(g, h);
      assert false;
    }
    NoSteps(ra);
    NoSteps(rb);
    SplitAt(rb, 0);
    InFront(ob, 0);
    assert ob[..0] == [];
    Associate5(GroupSteps(g), GroupSteps(h), RunSteps(rb, ob[1..]));
    if ob[1..] != [] { StepsBegin(rb, ob[1..], s); }
    Leading(GroupSteps(g + h), y, GroupSteps(g) + GroupSteps(h), RunSteps(rb, ob[1..]), s);
    GroupsMeetIff(g, h);
  }

  lemma Associate3(a: seq<Step>, b: seq<Step>, c: seq<Step>)
    ensures a + b + c == a + (b + c)
  {
  }

  lemma Associate4(a: seq<Step>, b: seq<Step>, c: seq<Step>, d: seq<Step>)
    ensures (a + b + c) + d == a + (b + (c + d))
  {
  }

  lemma Associate5(a: seq<Step>, b: seq<Step>, c: seq<Step>)
    ensures a + ([] + ([] + b + c)) == (a + b) + c
  {
  }

  /** Behind the shared address the joined plan goes on with another one. */
  lemma JoinedRestElsewhere(ra: seq<Op>, rb: seq<Op>, k: nat)
    requires k < |Order(ra)|
    ensures var oa := Order(ra);
      Elsewhere(RunSteps(ra + rb, oa[k + 1..] + Fresh(oa, Order(rb))), oa[k])
  {
    hide At, RunSteps, Fresh;
    var oa, ob := Order(ra), Order(rb);
    OrderFacts(ra);
    OrderFacts(rb);
    hide Order;
    InFront(oa, k);
    FreshIs(oa, ob);
    NoSteps(ra + rb);
    var rest := oa[k + 1..] + Fresh(oa, ob);
    if rest != [] {
      assert rest[0] in oa[k + 1..] || rest[0] in Fresh(oa, ob);
      assert oa[k] in oa;
      AtConcat(ra, rb, rest[0]);
      StepsBegin(ra + rb, rest, oa[k]);
    }
  }

  /** So do the two plans, unless the address is the last of the first run and the first of the second. */
  lemma RestElsewhere(ra: seq<Op>, rb: seq<Op>, k: nat)
    requires k < |Order(ra)| && Order(rb) != []
    requires Order(ra)[k + 1..] != [] || Order(rb)[0] != Order(ra)[k]
    ensures Elsewhere(RunSteps(ra, Order(ra)[k + 1..]) + RunPlan(rb), Order(ra)[k])
  {
    hide At, RunSteps;
    var oa, ob := Order(ra), Order(rb);
    OrderFacts(ra);
    OrderFacts(rb);
    hide Order;
    InFront(oa, k);
    NoSteps(ra);
    if oa[k + 1..] != [] {
      assert oa[k + 1..][0] in oa[k + 1..];
      StepsBegin(ra, oa[k + 1..], oa[k]);
    } else {
      assert ob[0] in ob;
      StepsBegin(rb, ob, oa[k]);
    }
  }

  lemma MustMeet(ra: seq<Op>, rb: seq<Op>)
    requires RunPlan(ra + rb) == RunPlan(ra) + RunPlan(rb) && !Apart(ra, rb)
    ensures MeetOnce(ra, rb)
  {
    hide At, Order, RunPlan;
    var oa, ob := Order(ra), Order(rb);
    var k := FirstShared(oa, ob);
    SharedIsMeeting(ra, rb, k);
    forall a | a in oa && a in ob ensures a == oa[|oa| - 1] {
      var j :| 0 <= j < |oa| && oa[j] == a;
    }
  }

  /** Two runs are planned together as they are planned apart exactly when they share no address, or meet in one equal
      read each at the seam. */
  lemma RunsComposeIff(ra: seq<Op>, rb: seq<Op>)
    ensures RunPlan(ra + rb) == RunPlan(ra) + RunPlan(rb) <==> Apart(ra, rb) || MeetOnce(ra, rb)
  {
    hide RunPlan, Apart, MeetOnce;
    if Apart(ra, rb) {
      ApartComposes(ra, rb);
    } else if MeetOnce(ra, rb) {
      MeetComposes(ra, rb);
    } else if RunPlan(ra + rb) == RunPlan(ra) + RunPlan(rb) {
      MustMeet(ra, rb);
    }
  }
}
