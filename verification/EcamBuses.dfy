/** What the bus-number assignment achieves, from any configuration space. */
module EcamBuses {
  import opened Mmio
  import opened Ecam

  predicate NoRepeats<T(==)>(s: seq<T>) {
    forall i, j :: 0 <= i < j < |s| ==> s[i] != s[j]
  }

  // ------------------------------------------------------------- what a walk probes

  lemma RootsOnce(active: Option<set<nat>>)
    ensures NoRepeats(RootProbes(active, 3))
    ensures forall f :: f in RootProbes(active, 3) ==> f.bus == 0 && f.dev < 3 && f.fn == 0
  {
    hide RootProbes;
    RootProbesAre(active, 3);
  }

  lemma {:induction false} FoundAnswered(m: Space, base: int, fs: seq<Bdf>)
    ensures forall d :: d in Found(m, base, fs) ==> d.f in fs && Probe(m, base, d.f) == Some(d)
    ensures NoRepeats(fs) ==> forall i, j :: 0 <= i < j < |Found(m, base, fs)| ==>
      Found(m, base, fs)[i].f != Found(m, base, fs)[j].f
  {
    hide Probe;
    if fs != [] {
      var front := fs[..|fs| - 1];
      FoundAnswered(m, base, front);
      ProbeNames(m, base, fs[|fs| - 1]);
      var before := Found(m, base, front);
      assert forall i :: 0 <= i < |before| ==> before[i] in before;
      assert forall f :: f in front ==> f in fs;
    }
  }

  lemma ProbeNames(m: Space, base: int, f: Bdf)
    ensures Probe(m, base, f).Some? ==> Probe(m, base, f).value.f == f
  {
  }

  /** No two of the devices have the same bus behind them. */
  predicate DistinctBuses(ds: seq<Info>) {
    forall i, j :: 0 <= i < j < |ds| && Behind(ds[i]) == Behind(ds[j]) ==> Behind(ds[i]) == 0
  }

  lemma {:induction false} DistinctBusesIff(ds: seq<Info>)
    ensures NoRepeats(BusesBehind(ds)) <==> DistinctBuses(ds)
  {
    hide Behind;
    if ds != [] {
      var front, last := ds[..|ds| - 1], ds[|ds| - 1];
      DistinctBusesIff(front);
      BusesBehindAre(front);
      var before, s := BusesBehind(front), Behind(last);
      if s != 0 {
        AppendNoRepeats(before, s);
      }
      LastDistinct(ds);
    }
  }

  lemma LastDistinct(ds: seq<Info>)
    requires ds != []
    ensures var front, s := ds[..|ds| - 1], Behind(ds[|ds| - 1]);
      DistinctBuses(ds) <==>
        DistinctBuses(front) && (s == 0 || !exists i :: 0 <= i < |front| && Behind(front[i]) == s)
  {
    hide Behind;
    var front, last := ds[..|ds| - 1], ds[|ds| - 1];
    assert forall i :: 0 <= i < |front| ==> front[i] == ds[i];
    if DistinctBuses(ds) {
      assert forall i, j :: 0 <= i < j < |front| && Behind(front[i]) == Behind(front[j]) ==> Behind(ds[i]) == Behind(ds[j]);
      if i :| 0 <= i < |front| && Behind(front[i]) == Behind(last) {
        assert Behind(ds[i]) == Behind(ds[|ds| - 1]);
      }
    } else {
      var i, j :| 0 <= i < j < |ds| && Behind(ds[i]) == Behind(ds[j]) && Behind(ds[i]) != 0;
      if j < |front| { assert Behind(front[i]) == Behind(front[j]); }
      else { assert Behind(front[i]) == Behind(last); }
    }
  }

  lemma AppendNoRepeats<T>(s: seq<T>, x: T)
    ensures NoRepeats(s + [x]) <==> NoRepeats(s) && x !in s
  {
    var t := s + [x];
    assert forall i :: 0 <= i < |s| ==> t[i] == s[i];
    if NoRepeats(t) {
      assert forall i :: 0 <= i < |s| ==> t[i] != t[|s|];
    }
  }

  lemma DownstreamRepeats(buses: seq<Byte>)
    ensures NoRepeats(Downstream(buses)) <==> NoRepeats(buses)
  {
    var fs := Downstream(buses);
    if NoRepeats(buses) {
      forall i, j | 0 <= i < j < |fs|
        ensures fs[i] != fs[j]
      {
        if i / 2 < j / 2 { assert buses[i / 2] != buses[j / 2]; }
      }
    }
    if NoRepeats(fs) {
      forall i, j | 0 <= i < j < |buses|
        ensures buses[i] != buses[j]
      {
        assert fs[2 * i] != fs[2 * j];
      }
    }
  }

  /** A walk probes no function twice exactly when the root bridges have pairwise different buses behind them. */
  lemma ProbesOnceIff(m: Space, base: int, active: Option<set<nat>>)
    ensures NoRepeats(WalkOrder(m, base, active)) <==> DistinctBuses(Roots(m, base, active))
  {
    hide RootProbes, Downstream, Found, DistinctBuses;
    var roots := RootProbes(active, 3);
    var buses := BusesBehind(Roots(m, base, active));
    var down := Downstream(buses);
    RootsOnce(active);
    DistinctBusesIff(Roots(m, base, active));
    DownstreamRepeats(buses);
    DownstreamBelow(m, base, active);
    Disjoint(roots, down);
  }

  lemma Disjoint<T>(a: seq<T>, b: seq<T>)
    requires NoRepeats(a) && forall x :: x in a ==> x !in b
    ensures NoRepeats(a + b) <==> NoRepeats(b)
  {
    var c := a + b;
    if NoRepeats(c) {
      forall i, j | 0 <= i < j < |b|
        ensures b[i] != b[j]
      {
        assert c[|a| + i] != c[|a| + j];
      }
    }
    if NoRepeats(b) {
      forall i, j | 0 <= i < j < |c|
        ensures c[i] != c[j]
      {
        if i < |a| <= j { assert a[i] in a && b[j - |a|] in b; }
      }
    }
  }

  lemma DownstreamBelow(m: Space, base: int, active: Option<set<nat>>)
    ensures forall f :: f in Downstream(BusesBehind(Roots(m, base, active))) ==> f.bus != 0 && InRange(f)
  {
    hide RootProbes, Found;
    BusesBehindAre(Roots(m, base, active));
    var buses := BusesBehind(Roots(m, base, active));
    assert forall k :: 0 <= k < |buses| ==> buses[k] in buses;
  }

  // --------------------------------------------------------- what the writes touch

  /** The four bytes of a bus-number write: primary, secondary, subordinate, latency timer. */
  function BusByte(n: nat, k: nat): nat {
    if k == 1 || k == 2 then n else 0
  }

  lemma WriteBytes(m: Space, a: int, v: nat, x: int)
    ensures Write32(m, a, v)[x] ==
      if x == a then v % 0x100
      else if x == a + 1 then v / 0x100 % 0x100
      else if x == a + 2 then v / 0x1_0000 % 0x100
      else if x == a + 3 then v / 0x100_0000 % 0x100
      else m[x]
  {
  }

  lemma Split(q: nat, r: nat)
    requires r < 0x100
    ensures (0x100 * q + r) / 0x100 == q && (0x100 * q + r) % 0x100 == r
  {
  }

  lemma SplitHigh(q: nat, r: nat)
    requires r < 0x1_0000
    ensures (0x1_0000 * q + r) / 0x1_0000 == q
  {
  }

  lemma Small(v: nat)
    requires v < 0x100_0000
    ensures v / 0x100_0000 == 0
  {
  }

  lemma BusRegBytes(n: nat)
    requires n < 0x100
    ensures BusReg(n) % 0x100 == 0 && BusReg(n) / 0x100 % 0x100 == n
    ensures BusReg(n) / 0x1_0000 % 0x100 == n && BusReg(n) / 0x100_0000 % 0x100 == 0
  {
    assert BusReg(n) == 0x100 * (0x100 * n + n) + 0 == 0x1_0000 * n + 0x100 * n;
    Split(0x100 * n + n, 0);
    Split(n, n);
    SplitHigh(n, 0x100 * n);
    Split(0, n);
    Small(BusReg(n));
  }

  lemma BusWrite(m: Space, base: int, f: Bdf, n: nat, g: Bdf, off: nat)
    requires InRange(f) && InRange(g) && off < 4096 && n < 0x100
    ensures Write32(m, EcamAddr(base, f, PRIMARY_BUS), BusReg(n))[EcamAddr(base, g, off)] ==
      if f == g && PRIMARY_BUS <= off < PRIMARY_BUS + 4 then BusByte(n, off - PRIMARY_BUS)
      else m[EcamAddr(base, g, off)]
  {
    hide Write32, BusReg, EcamAddr;
    var a, x := EcamAddr(base, f, PRIMARY_BUS), EcamAddr(base, g, off);
    WriteBytes(m, a, BusReg(n), x);
    BusRegBytes(n);
    SameRegister(base, f, 0, g, off);
    SameRegister(base, f, 1, g, off);
    SameRegister(base, f, 2, g, off);
    SameRegister(base, f, 3, g, off);
  }

  lemma SameRegister(base: int, f: Bdf, k: nat, g: Bdf, off: nat)
    requires InRange(f) && InRange(g) && k < 4 && off < 4096
    ensures EcamAddr(base, f, PRIMARY_BUS) + k == EcamAddr(base, g, off) <==> f == g && off == PRIMARY_BUS + k
  {
    NextAddr(base, f, PRIMARY_BUS, k);
    if EcamAddr(base, f, PRIMARY_BUS + k) == EcamAddr(base, g, off) {
      EcamInjective(base, f, PRIMARY_BUS + k, g, off);
    }
  }

  lemma NextAddr(base: int, f: Bdf, off: nat, k: nat)
    ensures EcamAddr(base, f, off + k) == EcamAddr(base, f, off) + k
  {
  }

  ghost predicate AllInRange(ds: seq<Info>) {
    forall i :: 0 <= i < |ds| ==> InRange(ds[i].f)
  }

  /** Only the bus-number bytes of the eligible devices change. */
  lemma {:induction false} AssignedFrame(m: Space, base: int, ds: seq<Info>, g: Bdf, off: nat)
    requires AllInRange(ds) && |ds| < 0x100 && InRange(g) && off < 4096
    requires PRIMARY_BUS <= off < PRIMARY_BUS + 4 ==> forall i :: 0 <= i < |ds| && ds[i].f == g ==> !Eligible(ds[i])
    ensures Assigned(m, base, ds)[EcamAddr(base, g, off)] == m[EcamAddr(base, g, off)]
  {
    hide Write32, BusReg, EcamAddr, InRange, Eligible;
    if ds != [] {
      var front, d := ds[..|ds| - 1], ds[|ds| - 1];
      AssignedFrame(m, base, front, g, off);
      if Eligible(d) {
        BusWrite(Assigned(m, base, front), base, d.f, 1 + CountEligible(front), g, off);
      }
    }
  }

  /** An eligible device that is not listed again later ends up with its own number. */
  lemma {:induction false} AssignedSelf(m: Space, base: int, ds: seq<Info>, i: nat, off: nat)
    requires AllInRange(ds) && |ds| < 0x100 && i < |ds| && Eligible(ds[i])
    requires forall j :: i < j < |ds| ==> ds[j].f != ds[i].f
    requires PRIMARY_BUS <= off < PRIMARY_BUS + 4
    ensures Assigned(m, base, ds)[EcamAddr(base, ds[i].f, off)] ==
            BusByte(1 + CountEligible(ds[..i]), off - PRIMARY_BUS)
  {
    hide Write32, BusReg, EcamAddr, InRange, Eligible, BusByte;
    var front, d := ds[..|ds| - 1], ds[|ds| - 1];
    if i < |front| {
      assert front[..i] == ds[..i];
      AssignedSelf(m, base, front, i, off);
    } else {
      assert front == ds[..i];
    }
    if Eligible(d) {
      BusWrite(Assigned(m, base, front), base, d.f, 1 + CountEligible(front), ds[i].f, off);
    }
  }

  // ------------------------------------------------------------ the root bridges after

  lemma {:induction false} FoundLength(m: Space, base: int, fs: seq<Bdf>)
    ensures |Found(m, base, fs)| <= |fs|
  {
    hide Probe;
    if fs != [] { FoundLength(m, base, fs[..|fs| - 1]); }
  }

  lemma {:induction false} SmallWalk(active: Option<set<nat>>, n: nat, ds: seq<Info>)
    ensures |RootProbes(active, n)| <= n && |BusesBehind(ds)| <= |ds|
    decreases n + |ds|
  {
    hide Behind;
    if n > 0 { SmallWalk(active, n - 1, ds); }
    if ds != [] { SmallWalk(active, n, ds[..|ds| - 1]); }
  }

  /** A list of probe results: who answered, in range, once each. */
  lemma FoundShape(m: Space, base: int, fs: seq<Bdf>)
    requires forall f :: f in fs ==> InRange(f)
    ensures var ds := Found(m, base, fs);
      && |ds| <= |fs| && AllInRange(ds)
      && (forall i :: 0 <= i < |ds| ==> ds[i].f in fs && Probe(m, base, ds[i].f) == Some(ds[i]))
      && (NoRepeats(fs) ==> forall i, j :: 0 <= i < j < |ds| ==> ds[i].f != ds[j].f)
  {
    hide Probe, InRange, Found, NoRepeats;
    FoundAnswered(m, base, fs);
    FoundLength(m, base, fs);
    var ds := Found(m, base, fs);
    assert forall i :: 0 <= i < |ds| ==> ds[i] in ds;
  }

  /** A walk is its roots, all on bus 0, followed by devices on other buses; each is listed as it was probed. */
  lemma WalkShape(m: Space, base: int, active: Option<set<nat>>)
    ensures var walk, roots := Walk(m, base, active), Roots(m, base, active);
      && |roots| <= |walk| <= 9 && walk[..|roots|] == roots
      && AllInRange(walk)
      && (forall i, j :: 0 <= i < j < |roots| ==> roots[i].f != roots[j].f)
      && (forall i, j :: 0 <= i < |roots| <= j < |walk| ==> roots[i].f != walk[j].f)
      && (forall i :: 0 <= i < |walk| ==> Probe(m, base, walk[i].f) == Some(walk[i]))
  {
    hide RootProbes, Downstream, Probe, Found, BusesBehind, NoRepeats;
    var rootFs := RootProbes(active, 3);
    var roots := Roots(m, base, active);
    var downFs := Downstream(BusesBehind(roots));
    FoundConcat(m, base, rootFs, downFs);
    RootsOnce(active);
    DownstreamBelow(m, base, active);
    FoundShape(m, base, rootFs);
    FoundShape(m, base, downFs);
    SmallWalk(active, 3, roots);
    DownstreamLength(BusesBehind(roots));
  }

  lemma DownstreamLength(buses: seq<Byte>)
    ensures |Downstream(buses)| == 2 * |buses|
  {
  }

  function Renumber(d: Info, n: nat): Info
    requires n < 0x100
  {
    if Eligible(d) && d.bridge.Some? then d.(bridge := Some(Buses(0, n, n))) else d
  }

  function Renumbered(ds: seq<Info>): seq<Info>
    requires |ds| < 0x100
  {
    seq(|ds|, i requires 0 <= i < |ds| => Renumber(ds[i], 1 + CountEligible(ds[..i])))
  }

  /** Probing looks at the first 0x18 bytes and, for a type 1 header, at the bus numbers. */
  lemma ProbeSame(m: Space, m': Space, base: int, f: Bdf)
    requires forall off: nat :: off < PRIMARY_BUS ==> m'[EcamAddr(base, f, off)] == m[EcamAddr(base, f, off)]
    ensures Probe(m, base, f).None? <==> Probe(m', base, f).None?
    ensures Probe(m, base, f).Some? ==>
      var d := Probe(m, base, f).value;
      Probe(m', base, f) == Some(d.(bridge :=
        if d.bridge.None? then None
        else Some(Buses(m'[EcamAddr(base, f, PRIMARY_BUS)], m'[EcamAddr(base, f, SECONDARY_BUS)],
                        m'[EcamAddr(base, f, SUBORDINATE)]))))
  {
    assert Read32(m, EcamAddr(base, f, VENDOR_ID)) == Read32(m', EcamAddr(base, f, VENDOR_ID)) by {
      SameWord(m, m', base, f, VENDOR_ID);
    }
    assert Read32(m, EcamAddr(base, f, REVISION)) == Read32(m', EcamAddr(base, f, REVISION)) by {
      SameWord(m, m', base, f, REVISION);
    }
    hide Read32, EcamAddr;
    assert m'[EcamAddr(base, f, HEADER_TYPE)] == m[EcamAddr(base, f, HEADER_TYPE)];
  }

  lemma SameWord(m: Space, m': Space, base: int, f: Bdf, at: nat)
    requires forall off: nat :: off < PRIMARY_BUS ==> m'[EcamAddr(base, f, off)] == m[EcamAddr(base, f, off)]
    requires at + 4 <= PRIMARY_BUS
    ensures Read32(m, EcamAddr(base, f, at)) == Read32(m', EcamAddr(base, f, at))
  {
    assert m'[EcamAddr(base, f, at)] == m[EcamAddr(base, f, at)];
    assert m'[EcamAddr(base, f, at + 1)] == m[EcamAddr(base, f, at + 1)];
    assert m'[EcamAddr(base, f, at + 2)] == m[EcamAddr(base, f, at + 2)];
    assert m'[EcamAddr(base, f, at + 3)] == m[EcamAddr(base, f, at + 3)];
  }

  lemma RootAfter(m: Space, base: int, active: Option<set<nat>>, i: nat)
    requires i < |Roots(m, base, active)| && |Roots(m, base, active)| <= 3
    ensures var d := Roots(m, base, active)[i];
      Probe(Assigned(m, base, Walk(m, base, active)), base, d.f)
      == Some(Renumber(d, 1 + CountEligible(Roots(m, base, active)[..i])))
  {
    hide RootProbes, Roots, Walk, Probe, Assigned, EcamAddr;
    var walk, roots := Walk(m, base, active), Roots(m, base, active);
    var m' := Assigned(m, base, walk);
    WalkShape(m, base, active);
    var d := roots[i];
    assert walk[i] == d && walk[..i] == roots[..i];
    forall off: nat | off < PRIMARY_BUS
      ensures m'[EcamAddr(base, d.f, off)] == m[EcamAddr(base, d.f, off)]
    {
      AssignedFrame(m, base, walk, d.f, off);
    }
    ProbeSame(m, m', base, d.f);
    BusBytesOf(m, base, d.f);
    forall off: nat | PRIMARY_BUS <= off < PRIMARY_BUS + 4
      ensures m'[EcamAddr(base, d.f, off)] ==
        if Eligible(d) then BusByte(1 + CountEligible(roots[..i]), off - PRIMARY_BUS) else m[EcamAddr(base, d.f, off)]
    {
      if Eligible(d) {
        assert forall j :: i < j < |roots| ==> walk[j] == roots[j];
        AssignedSelf(m, base, walk, i, off);
      } else {
        assert forall j :: 0 <= j < |walk| && walk[j].f == d.f ==> walk[j] == d;
        AssignedFrame(m, base, walk, d.f, off);
      }
    }
  }

  lemma BusBytesOf(m: Space, base: int, f: Bdf)
    ensures Probe(m, base, f).Some? && Probe(m, base, f).value.bridge.Some? ==>
      Probe(m, base, f).value.bridge.value ==
      Buses(m[EcamAddr(base, f, PRIMARY_BUS)], m[EcamAddr(base, f, SECONDARY_BUS)], m[EcamAddr(base, f, SUBORDINATE)])
  {
  }

  lemma {:induction false} FoundRenumbered(m: Space, m': Space, base: int, fs: seq<Bdf>)
    requires |Found(m, base, fs)| < 0x100
    requires forall f :: f in fs && Probe(m, base, f).None? ==> Probe(m', base, f).None?
    requires forall i :: 0 <= i < |Found(m, base, fs)| ==>
      Probe(m', base, Found(m, base, fs)[i].f)
      == Some(Renumber(Found(m, base, fs)[i], 1 + CountEligible(Found(m, base, fs)[..i])))
    ensures Found(m', base, fs) == Renumbered(Found(m, base, fs))
  {
    hide Probe, Renumber, Eligible, Found, Renumbered, CountEligible;
    if fs == [] {
      NothingFound(m, m', base);
    } else {
      var fs', f := fs[..|fs| - 1], fs[|fs| - 1];
      var front, all := Found(m, base, fs'), Found(m, base, fs);
      assert fs == fs' + [f] && f in fs;
      FoundOneMore(m, base, fs', f);
      FoundOneMore(m', base, fs', f);
      ProbeNames(m, base, f);
      assert forall i :: 0 <= i < |front| ==> front[i] == all[i] && front[..i] == all[..i];
      FoundRenumbered(m, m', base, fs');
      if Probe(m, base, f).Some? {
        var d := Probe(m, base, f).value;
        RenumberedFront(front, d);
        RenumberedAt(all, |front|);
        assert all == front + [d];
      } else {
        assert front + [] == front && Found(m', base, fs') + [] == Found(m', base, fs');
      }
    }
  }

  lemma NothingFound(m: Space, m': Space, base: int)
    ensures Found(m, base, []) == [] && Found(m', base, []) == Renumbered([])
  {
  }

  lemma RenumberedLength(ds: seq<Info>)
    requires |ds| < 0x100
    ensures |Renumbered(ds)| == |ds|
  {
    hide Renumber, CountEligible;
  }

  lemma RenumberedAt(ds: seq<Info>, i: nat)
    requires i < |ds| < 0x100
    ensures |Renumbered(ds)| == |ds| && Renumbered(ds)[i] == Renumber(ds[i], 1 + CountEligible(ds[..i]))
  {
    hide Renumber, CountEligible;
  }

  lemma RenumberedMoreAt(ds: seq<Info>, d: Info, i: nat)
    requires |ds| < 0xff && i <= |ds|
    ensures |Renumbered(ds + [d])| == |ds| + 1 && |Renumbered(ds)| == |ds|
    ensures Renumbered(ds + [d])[i] == if i < |ds| then Renumbered(ds)[i] else Renumber(d, 1 + CountEligible(ds))
  {
    hide Renumber, CountEligible, Renumbered;
    RenumberedLength(ds);
    RenumberedLength(ds + [d]);
    RenumberedAt(ds + [d], i);
    if i < |ds| {
      RenumberedAt(ds, i);
      assert (ds + [d])[..i] == ds[..i];
    } else {
      assert (ds + [d])[..i] == ds;
    }
  }

  lemma RenumberedFront(ds: seq<Info>, d: Info)
    requires |ds| < 0xff
    ensures |Renumbered(ds + [d])| == |ds| + 1 && Renumbered(ds + [d])[..|ds|] == Renumbered(ds)
  {
    hide Renumber, CountEligible, Renumbered;
    RenumberedLength(ds);
    RenumberedLength(ds + [d]);
    forall i: nat | i < |ds|
      ensures Renumbered(ds + [d])[i] == Renumbered(ds)[i]
    {
      RenumberedMoreAt(ds, d, i);
    }
  }

  /** The roots of the second walk are the roots of the first with their new numbers. */
  lemma RootsAfter(m: Space, base: int, active: Option<set<nat>>)
    ensures |Roots(m, base, active)| <= 3
    ensures Roots(Assigned(m, base, Walk(m, base, active)), base, active) == Renumbered(Roots(m, base, active))
  {
    hide RootProbes, Found, Walk, Assigned, Probe, Renumber, EcamAddr;
    var fs := RootProbes(active, 3);
    var walk := Walk(m, base, active);
    var m' := Assigned(m, base, walk);
    SmallWalk(active, 3, []);
    FoundLength(m, base, fs);
    RootsOnce(active);
    WalkShape(m, base, active);
    forall f | f in fs && Probe(m, base, f).None?
      ensures Probe(m', base, f).None?
    {
      forall off: nat | off < PRIMARY_BUS
        ensures m'[EcamAddr(base, f, off)] == m[EcamAddr(base, f, off)]
      {
        AssignedFrame(m, base, walk, f, off);
      }
      ProbeSame(m, m', base, f);
    }
    forall i | 0 <= i < |Found(m, base, fs)|
      ensures Probe(m', base, Found(m, base, fs)[i].f)
              == Some(Renumber(Found(m, base, fs)[i], 1 + CountEligible(Found(m, base, fs)[..i])))
    {
      RootAfter(m, base, active, i);
    }
    FoundRenumbered(m, m', base, fs);
  }

  // ------------------------------------------------------------------ the theorems

  /** A root bridge that is given a number. */
  predicate Numbered(d: Info) {
    Eligible(d) && d.bridge.Some?
  }

  /** The buses the root bridges had already are different from each other and from the numbers given out. */
  predicate NoClash(roots: seq<Info>) {
    && DistinctBuses(roots)
    && forall i, j :: 0 <= i < |roots| && 0 <= j < |roots| && Behind(roots[i]) != 0 && Numbered(roots[j]) ==>
         Behind(roots[i]) != 1 + CountEligible(roots[..j])
  }

  lemma {:induction false} CountGrows(ds: seq<Info>, i: nat, j: nat)
    requires i < j <= |ds|
    ensures CountEligible(ds[..i]) + (if Eligible(ds[i]) then 1 else 0) <= CountEligible(ds[..j])
  {
    hide Eligible;
    assert ds[..j][..j - 1] == ds[..j - 1];
    if i < j - 1 { CountGrows(ds, i, j - 1); }
  }

  lemma BehindRenumbered(ds: seq<Info>, i: nat)
    requires i < |ds| < 0x100
    ensures |Renumbered(ds)| == |ds|
    ensures Behind(Renumbered(ds)[i]) == if Numbered(ds[i]) then 1 + CountEligible(ds[..i]) else Behind(ds[i])
  {
    hide CountEligible;
  }

  lemma DistinctAfterIff(roots: seq<Info>)
    requires |roots| < 0x100
    ensures DistinctBuses(Renumbered(roots)) <==> NoClash(roots)
  {
    hide Behind, Numbered, Eligible, Renumbered;
    var after := Renumbered(roots);
    RenumberedLength(roots);
    forall i | 0 <= i < |roots|
      ensures Behind(after[i]) == if Numbered(roots[i]) then 1 + CountEligible(roots[..i]) else Behind(roots[i])
      ensures Numbered(roots[i]) ==> Eligible(roots[i]) && Behind(roots[i]) == 0
    {
      BehindRenumbered(roots, i);
      NumberedIs(roots[i]);
    }
    forall i, j | 0 <= i < j < |roots| && Numbered(roots[i])
      ensures CountEligible(roots[..i]) < CountEligible(roots[..j])
    {
      CountGrows(roots, i, j);
    }
    if DistinctBuses(after) {
      forall i, j | 0 <= i < |roots| && 0 <= j < |roots| && Behind(roots[i]) != 0 && Numbered(roots[j])
        ensures Behind(roots[i]) != 1 + CountEligible(roots[..j])
      {
        if i < j { assert Behind(after[i]) != Behind(after[j]); }
        if j < i { assert Behind(after[j]) != Behind(after[i]); }
      }
      forall i, j | 0 <= i < j < |roots| && Behind(roots[i]) != 0
        ensures Behind(roots[i]) != Behind(roots[j])
      {
        if !Numbered(roots[j]) { assert Behind(after[i]) != Behind(after[j]); }
      }
    }
    if NoClash(roots) {
      forall i, j | 0 <= i < j < |after| && Behind(after[i]) == Behind(after[j])
        ensures Behind(after[i]) == 0
      {
        if !Numbered(roots[i]) && !Numbered(roots[j]) { assert Behind(roots[i]) == Behind(roots[j]); }
      }
    }
  }

  lemma NumberedIs(d: Info)
    ensures Numbered(d) ==> Eligible(d) && Behind(d) == 0
  {
  }

  /** The second walk probes no function twice exactly when the buses the root bridges came with are different from
      each other and from the numbers given out. */
  lemma RewalkProbesOnceIff(m: Space, base: int, active: Option<set<nat>>)
    ensures NoRepeats(WalkOrder(Assigned(m, base, Walk(m, base, active)), base, active))
            <==> NoClash(Roots(m, base, active))
  {
    hide WalkOrder, Roots, Assigned, Walk, NoClash, DistinctBuses, Renumbered;
    RootsAfter(m, base, active);
    ProbesOnceIff(Assigned(m, base, Walk(m, base, active)), base, active);
    DistinctAfterIff(Roots(m, base, active));
  }

  /** Root bridges as they come out of reset: no bus behind any, and the class code of a bridge on type 1 headers only. */
  ghost predicate Fresh(roots: seq<Info>) {
    forall i :: 0 <= i < |roots| ==> Behind(roots[i]) == 0 && (roots[i].clsBase == 0x06 ==> roots[i].bridge.Some?)
  }

  lemma FreshIsClear(roots: seq<Info>)
    requires Fresh(roots)
    ensures NoClash(roots) && BusesBehind(roots) == []
  {
    hide Behind, Numbered;
    BusesBehindAre(roots);
    if BusesBehind(roots) != [] { assert BusesBehind(roots)[0] in BusesBehind(roots); }
  }

  /** From reset, the k bridges get the one-bus ranges 1, 2, ..., k in walk order, and the second walk probes no
      function twice. */
  lemma FreshBridges(m: Space, base: int, active: Option<set<nat>>)
    requires Fresh(Roots(m, base, active))
    ensures var roots := Roots(m, base, active);
      var after := Roots(Assigned(m, base, Walk(m, base, active)), base, active);
      && |after| == |roots| <= 3
      && (forall i :: 0 <= i < |roots| ==> after[i].f == roots[i].f)
      && (forall i :: 0 <= i < |roots| && roots[i].clsBase == 0x06 ==>
           var n := 1 + CountEligible(roots[..i]);
           after[i].bridge == Some(Buses(0, n, n)))
      && (forall i, j :: 0 <= i < j < |roots| && roots[i].clsBase == 0x06 && roots[j].clsBase == 0x06 ==>
           after[i].bridge.value.subordinate < after[j].bridge.value.secondary)
    ensures NoRepeats(WalkOrder(Assigned(m, base, Walk(m, base, active)), base, active))
  {
    hide WalkOrder, Roots, Assigned, Walk, NoClash, NoRepeats, Renumbered, CountEligible, BusesBehind;
    var roots := Roots(m, base, active);
    RootsAfter(m, base, active);
    RenumberedLength(roots);
    forall i | 0 <= i < |roots|
      ensures Renumbered(roots)[i] == Renumber(roots[i], 1 + CountEligible(roots[..i]))
    {
      RenumberedAt(roots, i);
    }
    FreshIsClear(roots);
    RewalkProbesOnceIff(m, base, active);
    forall i, j | 0 <= i < j < |roots| && Eligible(roots[i])
      ensures CountEligible(roots[..i]) < CountEligible(roots[..j])
    {
      CountGrows(roots, i, j);
    }
  }

  /** From reset, no configuration byte changes but the four bus-number bytes of the root bridges. */
  lemma FreshFrame(m: Space, base: int, active: Option<set<nat>>, g: Bdf, off: nat)
    requires Fresh(Roots(m, base, active)) && InRange(g) && off < 4096
    requires PRIMARY_BUS <= off < PRIMARY_BUS + 4 ==>
      !exists i :: 0 <= i < |Roots(m, base, active)| && Roots(m, base, active)[i].f == g
                   && Roots(m, base, active)[i].clsBase == 0x06
    ensures Assigned(m, base, Walk(m, base, active))[EcamAddr(base, g, off)] == m[EcamAddr(base, g, off)]
  {
    hide Assigned, EcamAddr, Probe, RootProbes, Found;
    var roots := Roots(m, base, active);
    FreshIsClear(roots);
    WalkShape(m, base, active);
    NothingDownstream(m, base);
    assert RootProbes(active, 3) + [] == RootProbes(active, 3);
    assert Walk(m, base, active) == roots;
    AssignedFrame(m, base, roots, g, off);
  }

  /** A root bridge that already has bus 1 behind it shares it with the first bridge that is given a number. */
  lemma PresetBusIsSharedWithTheFirst(m: Space, base: int, active: Option<set<nat>>, i: nat, j: nat)
    requires i < |Roots(m, base, active)| && j < |Roots(m, base, active)|
    requires Behind(Roots(m, base, active)[i]) == 1
    requires Numbered(Roots(m, base, active)[j]) && CountEligible(Roots(m, base, active)[..j]) == 0
    ensures !NoRepeats(WalkOrder(Assigned(m, base, Walk(m, base, active)), base, active))
  {
    hide WalkOrder, Roots, Assigned, Walk;
    RewalkProbesOnceIff(m, base, active);
  }
}
