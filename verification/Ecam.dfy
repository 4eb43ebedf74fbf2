/** PCI configuration space: the ECAM address map, the bus walk, and the sequential bus-number assignment. */
module Ecam {
  import opened Mmio

  // ------------------------------------------------------------ configuration space

  type Byte = b: nat | b < 256

  ghost predicate Everywhere(m: imap<int, Byte>) {
    forall a: int :: a in m
  }

  /** Memory whose bytes are numbers, because bus numbers are computed with. */
  type Space = m: imap<int, Byte> | Everywhere(m)
    ghost witness imap a: int :: 0

  datatype Bdf = Bdf(bus: nat, dev: nat, fn: nat)

  predicate InRange(f: Bdf) {
    f.bus < 256 && f.dev < 32 && f.fn < 8
  }

  /** ecam_addr: section 7.2.2 of the PCI Express Base Specification. */
  function EcamAddr(base: int, f: Bdf, off: nat): int {
    base + f.bus * 0x10_0000 + f.dev * 0x8000 + f.fn * 0x1000 + off
  }

  /** No two registers of any two functions share an address. */
  lemma EcamInjective(base: int, f: Bdf, off: nat, g: Bdf, at: nat)
    requires InRange(f) && InRange(g) && off < 4096 && at < 4096
    requires EcamAddr(base, f, off) == EcamAddr(base, g, at)
    ensures f == g && off == at
  {
  }

  /** The address fields of the standard: the bus number in bits 27 to 20, the device in 19 to 15, the function in 14 to
      12, the register below. */
  lemma EcamDecodes(base: int, f: Bdf, off: nat)
    requires InRange(f) && off < 4096
    ensures var x := EcamAddr(base, f, off) - base;
      0 <= x < 0x1000_0000 && x / 0x10_0000 == f.bus && x / 0x8000 % 32 == f.dev && x / 0x1000 % 8 == f.fn && x % 0x1000 == off
  {
    var x, page, slot := EcamAddr(base, f, off) - base, f.bus * 256 + f.dev * 8 + f.fn, f.bus * 32 + f.dev;
    assert x == page * 0x1000 + off && x / 0x1000 == page && x % 0x1000 == off;
    assert x == slot * 0x8000 + (f.fn * 0x1000 + off) && x / 0x8000 == slot;
    assert x == f.bus * 0x10_0000 + (f.dev * 0x8000 + f.fn * 0x1000 + off) && x / 0x10_0000 == f.bus;
  }

  function Read32(m: Space, a: int): nat {
    var b0: nat, b1: nat, b2: nat, b3: nat := m[a], m[a + 1], m[a + 2], m[a + 3];
    b0 + b1 * 0x100 + b2 * 0x1_0000 + b3 * 0x100_0000
  }

  function Write32(m: Space, a: int, v: nat): Space {
    m[a := v % 0x100][a + 1 := v / 0x100 % 0x100][a + 2 := v / 0x1_0000 % 0x100][a + 3 := v / 0x100_0000 % 0x100]
  }

  // ------------------------------------------------------------------ the walk

  const VENDOR_ID := 0x00
  const REVISION := 0x08
  const HEADER_TYPE := 0x0e
  const PRIMARY_BUS := 0x18
  const SECONDARY_BUS := 0x19
  const SUBORDINATE := 0x1a

  /** The bus-number bytes of a type 1 header (section 7.5.1.3 of revision 4.0). */
  datatype Buses = Buses(primary: Byte, secondary: Byte, subordinate: Byte)

  datatype Info = Info(f: Bdf, vid: nat, did: nat, clsBase: nat, bridge: Option<Buses>)

  function Probe(m: Space, base: int, f: Bdf): Option<Info> {
    var id := Read32(m, EcamAddr(base, f, VENDOR_ID));
    if id == 0xffff_ffff || id == 0 then None
    else
      var cls := Read32(m, EcamAddr(base, f, REVISION)) / 0x100_0000 % 0x100;
      var header := m[EcamAddr(base, f, HEADER_TYPE)];
      Some(Info(f, id % 0x1_0000, id / 0x1_0000 % 0x1_0000, cls,
        if header % 0x80 != 1 then None
        else Some(Buses(m[EcamAddr(base, f, PRIMARY_BUS)], m[EcamAddr(base, f, SECONDARY_BUS)],
                        m[EcamAddr(base, f, SUBORDINATE)]))))
  }

  /** The vendor and device identifiers are neither all ones nor all zero. */
  predicate Answers(m: Space, base: int, f: Bdf) {
    var a := EcamAddr(base, f, 0);
    && !(m[a] == 0xff && m[a + 1] == 0xff && m[a + 2] == 0xff && m[a + 3] == 0xff)
    && !(m[a] == 0 && m[a + 1] == 0 && m[a + 2] == 0 && m[a + 3] == 0)
  }

  predicate HasBridgeHeader(m: Space, base: int, f: Bdf) {
    m[EcamAddr(base, f, 0x0e)] == 0x01 || m[EcamAddr(base, f, 0x0e)] == 0x81
  }

  lemma WordBytes(m: Space, a: int)
    ensures var w := Read32(m, a);
      && (w == 0xffff_ffff <==> m[a] == m[a + 1] == m[a + 2] == m[a + 3] == 0xff)
      && (w == 0 <==> m[a] == m[a + 1] == m[a + 2] == m[a + 3] == 0)
      && w % 0x1_0000 % 0x100 == m[a] && w % 0x1_0000 / 0x100 == m[a + 1]
      && w / 0x1_0000 % 0x1_0000 % 0x100 == m[a + 2] && w / 0x1_0000 % 0x1_0000 / 0x100 == m[a + 3]
      && w / 0x100_0000 % 0x100 == m[a + 3]
  {
    Bytes(m[a], m[a + 1], m[a + 2], m[a + 3]);
  }

  lemma Bytes(b0: Byte, b1: Byte, b2: Byte, b3: Byte)
    ensures var w: nat := b0 + b1 * 0x100 + b2 * 0x1_0000 + b3 * 0x100_0000;
      && (w == 0xffff_ffff <==> b0 == b1 == b2 == b3 == 0xff) && (w == 0 <==> b0 == b1 == b2 == b3 == 0)
      && w % 0x1_0000 % 0x100 == b0 && w % 0x1_0000 / 0x100 == b1
      && w / 0x1_0000 % 0x1_0000 % 0x100 == b2 && w / 0x1_0000 % 0x1_0000 / 0x100 == b3 && w / 0x100_0000 % 0x100 == b3
  {
    var low: nat, high: nat := b0 + b1 * 0x100, b2 + b3 * 0x100;
    var w: nat := b0 + b1 * 0x100 + b2 * 0x1_0000 + b3 * 0x100_0000;
    assert w == high * 0x1_0000 + low && w % 0x1_0000 == low && w / 0x1_0000 == high;
  }

  /** What a probe reports, in the bytes of the header (section 7.5.1 of the PCI Express Base Specification). */
  lemma ProbeFields(m: Space, base: int, f: Bdf)
    ensures Probe(m, base, f).Some? <==> Answers(m, base, f)
    ensures Answers(m, base, f) ==>
      var d, a := Probe(m, base, f).value, EcamAddr(base, f, 0);
      && d.f == f
      && d.vid % 0x100 == m[a] && d.vid / 0x100 == m[a + 1] && d.did % 0x100 == m[a + 2] && d.did / 0x100 == m[a + 3]
      && d.clsBase == m[a + 0x0b]
      && (d.bridge.Some? <==> HasBridgeHeader(m, base, f))
      && (d.bridge.Some? ==> d.bridge.value == Buses(m[a + 0x18], m[a + 0x19], m[a + 0x1a]))
  {
    hide Read32;
    WordBytes(m, EcamAddr(base, f, VENDOR_ID));
    WordBytes(m, EcamAddr(base, f, REVISION));
    assert EcamAddr(base, f, REVISION) + 3 == EcamAddr(base, f, 0) + 0x0b;
  }

  /** The infos of the functions that answered, in probing order. */
  function Found(m: Space, base: int, fs: seq<Bdf>): seq<Info> {
    if fs == [] then []
    else
      var before := Found(m, base, fs[..|fs| - 1]);
      match Probe(m, base, fs[|fs| - 1])
      case None => before
      case Some(info) => before + [info]
  }

  /** The root functions among the first n ports, active ones only when the active ports are known. */
  function RootProbes(active: Option<set<nat>>, n: nat): seq<Bdf> {
    if n == 0 then []
    else if active.Some? && n - 1 !in active.value then RootProbes(active, n - 1)
    else RootProbes(active, n - 1) + [Bdf(0, n - 1, 0)]
  }

  /** The bus behind a device, 0 for none. */
  function Behind(d: Info): Byte {
    if d.bridge.None? then 0 else d.bridge.value.secondary
  }

  function BusesBehind(ds: seq<Info>): seq<Byte> {
    if ds == [] then []
    else
      var before, s := BusesBehind(ds[..|ds| - 1]), Behind(ds[|ds| - 1]);
      if s == 0 then before else before + [s]
  }

  /** Two devices on each bus. */
  function Downstream(buses: seq<Byte>): seq<Bdf> {
    seq(2 * |buses|, k requires 0 <= k < 2 * |buses| => Bdf(buses[k / 2], k % 2, 0))
  }

  function Roots(m: Space, base: int, active: Option<set<nat>>): seq<Info> {
    Found(m, base, RootProbes(active, 3))
  }

  /** Everything a walk probes, in order. */
  function WalkOrder(m: Space, base: int, active: Option<set<nat>>): seq<Bdf> {
    RootProbes(active, 3) + Downstream(BusesBehind(Roots(m, base, active)))
  }

  function Walk(m: Space, base: int, active: Option<set<nat>>): seq<Info> {
    Found(m, base, WalkOrder(m, base, active))
  }

  /** The root port may be probed. */
  predicate Admitted(active: Option<set<nat>>, d: nat) {
    d < 3 && (active.None? || d in active.value)
  }

  /** Some admitted root answers with a bridge header that has bus `s` behind it. */
  ghost predicate LeadsTo(m: Space, base: int, active: Option<set<nat>>, s: nat) {
    exists d: nat :: Admitted(active, d) && RootLeadsTo(m, base, d, s)
  }

  predicate RootLeadsTo(m: Space, base: int, d: nat, s: nat) {
    var root := Bdf(0, d, 0);
    Answers(m, base, root) && HasBridgeHeader(m, base, root) && m[EcamAddr(base, root, 0x19)] == s
  }

  /** A walk probes the admitted root ports in ascending order, then devices 0 and 1 on each bus behind one. */
  ghost predicate ProbesAsTold(m: Space, base: int, active: Option<set<nat>>, fs: seq<Bdf>) {
    && (forall f :: f in fs <==>
         f.fn == 0 && if f.bus == 0 then Admitted(active, f.dev) else f.dev < 2 && LeadsTo(m, base, active, f.bus))
    && (forall i, j :: 0 <= i < j < |fs| && fs[j].bus == 0 ==> fs[i].bus == 0 && fs[i].dev < fs[j].dev)
  }

  /** Exactly the probed functions that answer are reported. */
  ghost predicate ReportsAnswers(m: Space, base: int, fs: seq<Bdf>, ds: seq<Info>) {
    && (forall d :: d in ds ==> d.f in fs && Answers(m, base, d.f) && Probe(m, base, d.f) == Some(d))
    && (forall f :: f in fs && Answers(m, base, f) ==> exists d :: d in ds && d.f == f)
  }

  lemma {:induction false} RootProbesAre(active: Option<set<nat>>, n: nat)
    requires n <= 3
    ensures forall f :: f in RootProbes(active, n) <==> f.bus == 0 && f.fn == 0 && f.dev < n && Admitted(active, f.dev)
    ensures forall i, j :: 0 <= i < j < |RootProbes(active, n)| ==> RootProbes(active, n)[i].dev < RootProbes(active, n)[j].dev
  {
    if n > 0 {
      RootProbesAre(active, n - 1);
      var before := RootProbes(active, n - 1);
      assert forall i :: 0 <= i < |before| ==> before[i] in before;
      forall f
        ensures f in RootProbes(active, n) <==> f.bus == 0 && f.fn == 0 && f.dev < n && Admitted(active, f.dev)
      {
        assert f.bus == 0 && f.fn == 0 && f.dev == n - 1 ==> f == Bdf(0, n - 1, 0);
      }
    }
  }

  lemma {:induction false} FoundReports(m: Space, base: int, fs: seq<Bdf>)
    ensures ReportsAnswers(m, base, fs, Found(m, base, fs))
  {
    hide Probe, Answers;
    if fs != [] {
      var front, f := fs[..|fs| - 1], fs[|fs| - 1];
      FoundReports(m, base, front);
      ProbeFields(m, base, f);
      assert fs == front + [f];
      var before := Found(m, base, front);
      if Probe(m, base, f).Some? { assert Found(m, base, fs) == before + [Probe(m, base, f).value]; }
      forall g | g in fs && Answers(m, base, g) ensures exists d :: d in Found(m, base, fs) && d.f == g {
        if g in front {
          var d :| d in before && d.f == g;
          assert d in Found(m, base, fs);
        } else {
          assert Probe(m, base, f).value in Found(m, base, fs);
        }
      }
    }
  }

  lemma {:induction false} BusesBehindAre(ds: seq<Info>)
    ensures forall s :: s in BusesBehind(ds) <==> s != 0 && exists i :: 0 <= i < |ds| && Behind(ds[i]) == s
  {
    hide Behind;
    if ds != [] {
      var front, last := ds[..|ds| - 1], ds[|ds| - 1];
      BusesBehindAre(front);
      forall s
        ensures s in BusesBehind(ds) <==> s != 0 && exists i :: 0 <= i < |ds| && Behind(ds[i]) == s
      {
        if s != 0 && Behind(last) == s { assert Behind(ds[|ds| - 1]) == s; }
        if i :| 0 <= i < |front| && Behind(front[i]) == s { assert Behind(ds[i]) == s; }
        if i :| 0 <= i < |ds| && Behind(ds[i]) == s {
          if i < |front| { assert Behind(front[i]) == s; }
        }
      }
    }
  }

  lemma DownstreamAre(buses: seq<Byte>)
    ensures forall f :: f in Downstream(buses) <==> f.fn == 0 && f.dev < 2 && f.bus in buses
  {
    forall f: Bdf | f.fn == 0 && f.dev < 2 && f.bus in buses ensures f in Downstream(buses) {
      var k :| 0 <= k < |buses| && buses[k] == f.bus;
      assert Downstream(buses)[2 * k + f.dev] == f;
    }
  }

  lemma BehindMeans(m: Space, base: int, d: Info, s: nat)
    requires s != 0 && Probe(m, base, d.f) == Some(d) && d.f == Bdf(0, d.f.dev, 0)
    ensures Behind(d) == s <==> RootLeadsTo(m, base, d.f.dev, s)
  {
    hide Answers, HasBridgeHeader, Probe;
    ProbeFields(m, base, d.f);
  }

  /** The buses behind the roots that were found, in terms of the bytes. */
  lemma BusesAre(m: Space, base: int, active: Option<set<nat>>, s: nat)
    requires s != 0
    ensures s in BusesBehind(Roots(m, base, active)) <==> LeadsTo(m, base, active, s)
  {
    hide Probe, Answers, Behind, RootLeadsTo, Admitted, RootProbes, Found, BusesBehind;
    var roots := Roots(m, base, active);
    RootProbesAre(active, 3);
    FoundReports(m, base, RootProbes(active, 3));
    BusesBehindAre(roots);
    forall d | d in roots ensures Behind(d) == s <==> RootLeadsTo(m, base, d.f.dev, s) {
      BehindMeans(m, base, d, s);
    }
    if LeadsTo(m, base, active, s) {
      var d: nat :| Admitted(active, d) && RootLeadsTo(m, base, d, s);
      AdmittedRoot(m, base, active, d, s);
      var info :| info in roots && info.f == Bdf(0, d, 0);
      var i :| 0 <= i < |roots| && roots[i] == info;
      assert Behind(roots[i]) == s;
    }
    if i :| 0 <= i < |roots| && Behind(roots[i]) == s {
      assert roots[i] in roots;
    }
  }

  lemma AdmittedRoot(m: Space, base: int, active: Option<set<nat>>, d: nat, s: nat)
    requires Admitted(active, d) && RootLeadsTo(m, base, d, s)
    ensures Bdf(0, d, 0) in RootProbes(active, 3) && Answers(m, base, Bdf(0, d, 0))
  {
    hide RootProbes, Answers;
    RootProbesAre(active, 3);
  }

  lemma WalkProbesAsTold(m: Space, base: int, active: Option<set<nat>>)
    ensures ProbesAsTold(m, base, active, WalkOrder(m, base, active))
    ensures ReportsAnswers(m, base, WalkOrder(m, base, active), Walk(m, base, active))
  {
    hide Admitted, RootProbes, Found, BusesBehind, Downstream, LeadsTo, ReportsAnswers;
    var buses := BusesBehind(Roots(m, base, active));
    var roots, down := RootProbes(active, 3), Downstream(buses);
    RootProbesAre(active, 3);
    AdmittedBelow(active);
    BusesBehindAre(Roots(m, base, active));
    DownstreamAre(buses);
    forall f: Bdf | f.bus != 0 ensures f.bus in buses <==> LeadsTo(m, base, active, f.bus) {
      BusesAre(m, base, active, f.bus);
    }
    FoundReports(m, base, WalkOrder(m, base, active));
    assert forall i :: 0 <= i < |roots| ==> roots[i] in roots;
    assert forall i :: 0 <= i < |down| ==> down[i] in down;
  }

  lemma AdmittedBelow(active: Option<set<nat>>)
    ensures forall d :: Admitted(active, d) ==> d < 3
  {
  }

  // ----------------------------------------------------------- handing out numbers

  predicate Eligible(d: Info) {
    d.clsBase == 0x06 && Behind(d) == 0
  }

  function CountEligible(ds: seq<Info>): (n: nat)
    ensures n <= |ds|
  {
    if ds == [] then 0 else CountEligible(ds[..|ds| - 1]) + (if Eligible(ds[|ds| - 1]) then 1 else 0)
  }

  function BusReg(n: nat): nat {
    n * 0x1_0000 + n * 0x100
  }

  function Assigned(m: Space, base: int, ds: seq<Info>): Space {
    if ds == [] then m
    else
      var before, d := Assigned(m, base, ds[..|ds| - 1]), ds[|ds| - 1];
      if Eligible(d)
      then Write32(before, EcamAddr(base, d.f, PRIMARY_BUS), BusReg(1 + CountEligible(ds[..|ds| - 1])))
      else before
  }

  // ------------------------------------------------------------------- the program

  class Host {
    const base: int
    var mem: Space
    /** Every configuration header probed so far. */
    ghost var probed: seq<Bdf>

    ghost constructor (base: int, mem: Space)
      ensures this.base == base && this.mem == mem && probed == []
    {
      this.base, this.mem, probed := base, mem, [];
    }

    method ProbeDevice(f: Bdf) returns (info: Option<Info>)
      modifies this`probed
      ensures probed == old(probed) + [f] && info == Probe(mem, base, f)
    {
      probed := probed + [f];
      var id := Read32(mem, EcamAddr(base, f, VENDOR_ID));
      if id == 0xffff_ffff || id == 0 { return None; }
      var cls32 := Read32(mem, EcamAddr(base, f, REVISION));
      var header := mem[EcamAddr(base, f, HEADER_TYPE)];
      var bridge: Option<Buses> := None;
      if header % 0x80 == 0x01 {
        bridge := Some(Buses(mem[EcamAddr(base, f, PRIMARY_BUS)], mem[EcamAddr(base, f, SECONDARY_BUS)],
                             mem[EcamAddr(base, f, SUBORDINATE)]));
      }
      info := Some(Info(f, id % 0x1_0000, id / 0x1_0000 % 0x1_0000, cls32 / 0x100_0000 % 0x100, bridge));
    }

    /** The first part of a walk: the root functions. */
    method WalkRoots(active: Option<set<nat>>) returns (rootDevs: seq<Info>)
      modifies this`probed
      ensures probed == old(probed) + RootProbes(active, 3)
      ensures rootDevs == Roots(mem, base, active)
    {
      hide Probe;
      rootDevs := [];
      for d := 0 to 3
        invariant probed == old(probed) + RootProbes(active, d)
        invariant rootDevs == Found(mem, base, RootProbes(active, d))
      {
        if active.Some? && d !in active.value { continue; }
        var info := ProbeDevice(Bdf(0, d, 0));
        FoundOneMore(mem, base, RootProbes(active, d), Bdf(0, d, 0));
        if info.Some? { rootDevs := rootDevs + [info.value]; }
      }
    }

    /** The second part: two devices on each bus behind a root. */
    method WalkBehind(rootDevs: seq<Info>) returns (devices: seq<Info>)
      modifies this`probed
      ensures probed == old(probed) + Downstream(BusesBehind(rootDevs))
      ensures devices == Found(mem, base, Downstream(BusesBehind(rootDevs)))
    {
      hide Probe, Behind, Downstream, Found;
      NothingDownstream(mem, base);
      devices := [];
      for k := 0 to |rootDevs|
        invariant probed == old(probed) + Downstream(BusesBehind(rootDevs[..k]))
        invariant devices == Found(mem, base, Downstream(BusesBehind(rootDevs[..k])))
      {
        assert rootDevs[..k + 1][..k] == rootDevs[..k];
        ghost var before := Downstream(BusesBehind(rootDevs[..k]));
        var sec := Behind(rootDevs[k]);
        if sec == 0 { continue; }
        MoreDownstream(BusesBehind(rootDevs[..k]), sec);
        var first := ProbeDevice(Bdf(sec, 0, 0));
        var second := ProbeDevice(Bdf(sec, 1, 0));
        FoundOneMore(mem, base, before, Bdf(sec, 0, 0));
        FoundOneMore(mem, base, before + [Bdf(sec, 0, 0)], Bdf(sec, 1, 0));
        if first.Some? { devices := devices + [first.value]; }
        if second.Some? { devices := devices + [second.value]; }
      }
      assert rootDevs[..|rootDevs|] == rootDevs;
    }

    method EcamWalk(active: Option<set<nat>>) returns (devices: seq<Info>)
      modifies this`probed
      ensures probed == old(probed) + WalkOrder(mem, base, active)
      ensures devices == Walk(mem, base, active)
      ensures ProbesAsTold(mem, base, active, probed[|old(probed)|..])
      ensures ReportsAnswers(mem, base, probed[|old(probed)|..], devices)
    {
      hide RootProbes, Found, Downstream, BusesBehind, ProbesAsTold, ReportsAnswers;
      WalkProbesAsTold(mem, base, active);
      var rootDevs := WalkRoots(active);
      var rest := WalkBehind(rootDevs);
      devices := rootDevs + rest;
      FoundConcat(mem, base, RootProbes(active, 3), Downstream(BusesBehind(rootDevs)));
      assert probed[|old(probed)|..] == WalkOrder(mem, base, active);
    }

    /** One number per eligible device, in walk order, from 1. */
    method AssignBuses(devices: seq<Info>) returns (renumbered: bool)
      modifies this`mem
      ensures mem == Assigned(old(mem), base, devices)
      ensures renumbered <==> CountEligible(devices) > 0
    {
      hide Eligible;
      var nextBus := 1;
      renumbered := false;
      for k := 0 to |devices|
        invariant mem == Assigned(old(mem), base, devices[..k])
        invariant nextBus == 1 + CountEligible(devices[..k]) && renumbered == (nextBus > 1)
      {
        assert devices[..k + 1][..k] == devices[..k];
        if Eligible(devices[k]) {
          mem := Write32(mem, EcamAddr(base, devices[k].f, PRIMARY_BUS), BusReg(nextBus));
          nextBus := nextBus + 1;
          renumbered := true;
        }
      }
      assert devices[..|devices|] == devices;
    }

    /** Walk, hand out bus numbers, and walk again if any were handed out. */
    method Enumerate(active: Option<set<nat>>) returns (devices: seq<Info>)
      requires probed == []
      modifies this
      ensures var first := Walk(old(mem), base, active);
        && mem == Assigned(old(mem), base, first)
        && devices == Walk(mem, base, active)
        && probed == WalkOrder(old(mem), base, active)
                     + (if CountEligible(first) > 0 then WalkOrder(mem, base, active) else [])
    {
      hide WalkOrder, Walk;
      devices := EcamWalk(active);
      var renumbered := AssignBuses(devices);
      if renumbered {
        devices := EcamWalk(active);
      } else {
        NobodyAssigned(mem, base, devices);
        NobodyAssigned(old(mem), base, devices);
      }
    }
  }

  lemma NothingDownstream(m: Space, base: int)
    ensures Downstream(BusesBehind([])) == [] && Found(m, base, []) == []
  {
  }

  lemma MoreDownstream(buses: seq<Byte>, s: Byte)
    ensures Downstream(buses + [s]) == Downstream(buses) + [Bdf(s, 0, 0)] + [Bdf(s, 1, 0)]
  {
  }

  lemma FoundOneMore(m: Space, base: int, fs: seq<Bdf>, f: Bdf)
    ensures Found(m, base, fs + [f]) ==
      Found(m, base, fs) + (if Probe(m, base, f).Some? then [Probe(m, base, f).value] else [])
  {
    assert (fs + [f])[..|fs|] == fs;
  }

  lemma {:induction false} FoundConcat(m: Space, base: int, a: seq<Bdf>, b: seq<Bdf>)
    ensures Found(m, base, a + b) == Found(m, base, a) + Found(m, base, b)
  {
    hide Probe;
    if b == [] {
      assert a + b == a;
    } else {
      FoundConcat(m, base, a, b[..|b| - 1]);
      assert (a + b)[..|a + b| - 1] == a + b[..|b| - 1];
    }
  }

  lemma {:induction false} NobodyAssigned(m: Space, base: int, ds: seq<Info>)
    requires CountEligible(ds) == 0
    ensures Assigned(m, base, ds) == m
  {
    hide Eligible;
    if ds != [] { NobodyAssigned(m, base, ds[..|ds| - 1]); }
  }
}
