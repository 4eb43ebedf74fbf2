/** Tunable lists: masked updates of the phy_ip window, filtered by port slice. */
module Tunables {
  import opened Mmio

  /** One entry: at `offset` from the window base, clear `mask` and set `value` in `size` bytes. */
  datatype Entry = Entry(offset: int, size: nat, mask: bv64, value: bv64)

  const SLICE_BASE := 0x8000
  const SLICE_STRIDE := 0x8000
  const WINDOW_SIZE := 0x20000

  /** Where an offset falls; `active` tells whether the port has a bridge. */
  datatype Place = Shared | PortSlice(index: int, active: bool) | OutOfWindow

  function Classify(ports: seq<bool>, offset: int): Place {
    if offset < 0 || offset >= WINDOW_SIZE then OutOfWindow
    else if offset < SLICE_BASE then Shared
    else
      var idx := (offset - SLICE_BASE) / SLICE_STRIDE;
      PortSlice(idx, 0 <= idx < |ports| && ports[idx])
  }

  predicate Reachable(p: Place) {
    p.Shared? || (p.PortSlice? && p.active)
  }

  /** The bytes an applier may write: the first 0x8000 of the window, and those of the three ports that are active. */
  predicate InReach(ports: seq<bool>, x: int) {
    || 0 <= x < 0x8000
    || (0x8000 <= x < 0x1_0000 && |ports| > 0 && ports[0])
    || (0x1_0000 <= x < 0x1_8000 && |ports| > 1 && ports[1])
    || (0x1_8000 <= x < 0x2_0000 && |ports| > 2 && ports[2])
  }

  /** The classification finds out exactly that. */
  lemma ClassifyAgrees(ports: seq<bool>, x: int)
    ensures Reachable(Classify(ports, x)) <==> InReach(ports, x)
  {
    if 0x8000 <= x < 0x1_0000 {
      assert (x - SLICE_BASE) / SLICE_STRIDE == 0;
    } else if 0x1_0000 <= x < 0x1_8000 {
      assert (x - SLICE_BASE) / SLICE_STRIDE == 1;
    } else if 0x1_8000 <= x < 0x2_0000 {
      assert (x - SLICE_BASE) / SLICE_STRIDE == 2;
    }
  }

  /** The entries an applier does not skip, in order. */
  function Selected(ports: seq<bool>, entries: seq<Entry>): seq<Entry> {
    if entries == [] then []
    else
      var e := entries[|entries| - 1];
      Selected(ports, entries[..|entries| - 1]) + (if InReach(ports, e.offset) then [e] else [])
  }

  lemma {:induction false} SelectedMembers(ports: seq<bool>, entries: seq<Entry>)
    ensures forall e :: e in Selected(ports, entries) <==> e in entries && InReach(ports, e.offset)
  {
    hide InReach;
    if entries != [] {
      SelectedMembers(ports, entries[..|entries| - 1]);
      assert entries == entries[..|entries| - 1] + [entries[|entries| - 1]];
    }
  }

  lemma {:induction false} SelectedConcat(ports: seq<bool>, a: seq<Entry>, b: seq<Entry>)
    ensures Selected(ports, a + b) == Selected(ports, a) + Selected(ports, b)
  {
    hide InReach;
    if b == [] {
      assert a + b == a;
    } else {
      SelectedConcat(ports, a, b[..|b| - 1]);
      assert (a + b)[..|a + b| - 1] == a + b[..|b| - 1];
    }
  }

  function PatchOf(base: int, e: Entry): Patch {
    Patch(base + e.offset, e.size, e.mask, e.value)
  }

  function Patches(base: int, entries: seq<Entry>): seq<Patch> {
    seq(|entries|, k requires 0 <= k < |entries| => PatchOf(base, entries[k]))
  }

  ghost predicate Sizable(entries: seq<Entry>) {
    forall k :: 0 <= k < |entries| ==> Width(entries[k].size)
  }

  // --------------------------------------------------------------- live appliers

  /** How one masked access went: `Fine`, or an exception, a dead host or a counted bus error, in which
      cases the store may or may not have happened. */
  datatype Health = Fine | Failed(stored: bool)

  /** The memory after the first `done` of the selected entries, all of known sizes, or one more if the last access
      failed late. */
  ghost predicate AppliedUpTo(m: Mem, m': Mem, base: int, sel: seq<Entry>, done: nat, ok: bool) {
    && done <= |sel| && Sizable(sel[..done])
    && (m' == ApplyAll(m, Patches(base, sel[..done])) ||
        (!ok && done < |sel| && Width(sel[done].size) && m' == ApplyAll(m, Patches(base, sel[..done + 1]))))
    && (ok ==> done == |sel|)
  }

  /** So far every selected entry up to `done` has been applied, in order, with a known size. */
  ghost predicate Progress(m: Mem, m': Mem, base: int, sel: seq<Entry>, done: nat) {
    && done <= |sel| && Sizable(sel[..done])
    && m' == ApplyAll(m, Patches(base, sel[..done]))
  }

  /** Of the first `n` entries, all that are not skipped have known sizes and accesses that go well. */
  ghost predicate AllWell(ports: seq<bool>, entries: seq<Entry>, health: nat -> Health, n: nat)
    requires n <= |entries|
  {
    forall i :: 0 <= i < n && InReach(ports, entries[i].offset) ==> Width(entries[i].size) && health(i).Fine?
  }

  lemma WellNext(ports: seq<bool>, entries: seq<Entry>, health: nat -> Health, i: nat)
    requires i < |entries| && AllWell(ports, entries, health, i)
    ensures AllWell(ports, entries, health, i + 1) <==>
      (InReach(ports, entries[i].offset) ==> Width(entries[i].size) && health(i).Fine?)
    ensures !AllWell(ports, entries, health, i + 1) ==> !AllWell(ports, entries, health, |entries|)
    ensures AllWell(ports, entries, health, 0)
  {
    hide InReach, Width;
  }

  lemma ApplyOneMore(m: Mem, base: int, sel: seq<Entry>, done: nat)
    requires done < |sel|
    ensures ApplyAll(m, Patches(base, sel[..done + 1])) ==
            Apply(ApplyAll(m, Patches(base, sel[..done])), PatchOf(base, sel[done]))
  {
    hide Apply, PatchOf;
    var ps := Patches(base, sel[..done + 1]);
    assert sel[..done + 1] == sel[..done] + [sel[done]];
    assert ps[..done] == Patches(base, sel[..done]);
    assert ps[done] == PatchOf(base, sel[done]);
  }

  lemma SizableOneMore(sel: seq<Entry>, done: nat)
    requires done < |sel| && Sizable(sel[..done])
    ensures Sizable(sel[..done + 1]) <==> Width(sel[done].size)
    ensures !Width(sel[done].size) ==> !Sizable(sel)
  {
    hide Width;
    assert sel[..done + 1] == sel[..done] + [sel[done]];
    if Sizable(sel[..done + 1]) { assert sel[..done + 1][done] == sel[done]; }
  }

  lemma ProgressStep(m: Mem, m': Mem, base: int, sel: seq<Entry>, done: nat)
    requires Progress(m, m', base, sel, done) && done < |sel|
    ensures AppliedUpTo(m, m', base, sel, done, false)
    ensures Width(sel[done].size) ==>
      var next := Apply(m', PatchOf(base, sel[done]));
      AppliedUpTo(m, next, base, sel, done, false) && Progress(m, next, base, sel, done + 1)
    ensures !Width(sel[done].size) ==> !Sizable(sel)
  {
    hide Apply, ApplyAll, Patches, PatchOf, Width, Sizable;
    ApplyOneMore(m, base, sel, done);
    SizableOneMore(sel, done);
  }

  lemma ProgressEnd(m: Mem, m': Mem, base: int, sel: seq<Entry>)
    requires Progress(m, m', base, sel, |sel|)
    ensures AppliedUpTo(m, m', base, sel, |sel|, true)
  {
    assert sel[..|sel|] == sel;
  }

  lemma ProgressStart(m: Mem, base: int, sel: seq<Entry>)
    ensures Progress(m, m, base, sel, 0)
  {
    assert Patches(base, sel[..0]) == [];
  }

  lemma SelectedNext(ports: seq<bool>, entries: seq<Entry>, i: nat)
    requires i < |entries|
    ensures Selected(ports, entries[..i + 1]) ==
      Selected(ports, entries[..i]) + (if InReach(ports, entries[i].offset) then [entries[i]] else [])
  {
    assert entries[..i + 1][..i] == entries[..i];
  }

  lemma {:induction false} SelectedPrefix(ports: seq<bool>, entries: seq<Entry>, i: nat)
    requires i <= |entries|
    ensures Selected(ports, entries[..i]) <= Selected(ports, entries)
    decreases |entries| - i
  {
    if i == |entries| {
      assert entries[..i] == entries;
    } else {
      SelectedNext(ports, entries, i);
      SelectedPrefix(ports, entries, i + 1);
    }
  }

  lemma NothingSelected(ports: seq<bool>, entries: seq<Entry>)
    ensures Selected(ports, entries[..0]) == []
  {
  }

  lemma AllSelected(ports: seq<bool>, entries: seq<Entry>, applied: nat)
    requires applied <= |Selected(ports, entries)|
    requires Selected(ports, entries[..|entries|]) == Selected(ports, entries)[..applied]
    ensures applied == |Selected(ports, entries)|
  {
    hide Selected;
    assert entries[..|entries|] == entries;
  }

  lemma Advance(ports: seq<bool>, entries: seq<Entry>, i: nat, applied: nat)
    requires i < |entries| && applied <= |Selected(ports, entries)|
    requires Selected(ports, entries[..i]) == Selected(ports, entries)[..applied]
    ensures var sel := Selected(ports, entries);
      if InReach(ports, entries[i].offset)
      then applied < |sel| && sel[applied] == entries[i] && Selected(ports, entries[..i + 1]) == sel[..applied + 1]
      else Selected(ports, entries[..i + 1]) == sel[..applied]
  {
    hide Selected, InReach;
    SelectedNext(ports, entries, i);
    SelectedPrefix(ports, entries, i + 1);
  }

  class PhyIp {
    const base: int
    const ports: seq<bool>
    var mem: Mem

    constructor (base: int, ports: seq<bool>, mem: Mem)
      ensures this.base == base && this.ports == ports && this.mem == mem
    {
      this.base, this.ports, this.mem := base, ports, mem;
    }

    method MaskOp(e: Entry, health: Health)
      modifies this
      ensures mem == if health.Fine? || health.stored then Apply(old(mem), PatchOf(base, e)) else old(mem)
    {
      if health.Fine? || health.stored {
        mem := Apply(mem, PatchOf(base, e));
      }
    }

    /** Plans the whole list first, then applies the planned entries one by one; stops at an unknown size
        or the first access that does not go well. */
    method ApplyFiltered(entries: seq<Entry>, health: nat -> Health) returns (ok: bool, applied: nat)
      modifies this
      ensures AppliedUpTo(old(mem), mem, base, Selected(ports, entries), applied, ok)
      ensures ok <==> AllWell(ports, entries, health, |entries|)
    {
      hide Apply, Classify, Reachable, InReach, PatchOf, Selected, Progress, AppliedUpTo, Sizable, Width;
      NothingSelected(ports, entries);
      assert AllWell(ports, entries, health, 0);
      hide AllWell;
      ghost var sel := Selected(ports, entries);
      ProgressStart(mem, base, sel);
      var plan := PlanEntries(entries);
      applied := 0;
      for i := 0 to |plan|
        invariant applied <= |sel| && Selected(ports, entries[..i]) == sel[..applied]
        invariant Progress(old(mem), mem, base, sel, applied)
        invariant AllWell(ports, entries, health, i)
      {
        Advance(ports, entries, i, applied);
        WellNext(ports, entries, health, i);
        if !plan[i].1 { continue; }
        var e := plan[i].0;
        ProgressStep(old(mem), mem, base, sel, applied);
        if !Width(e.size) { return false, applied; }
        MaskOp(e, health(i));
        if !health(i).Fine? { return false, applied; }
        applied := applied + 1;
      }
      AllSelected(ports, entries, applied);
      ProgressEnd(old(mem), mem, base, sel);
      ok := true;
    }

    method PlanEntries(entries: seq<Entry>) returns (plan: seq<(Entry, bool)>)
      ensures |plan| == |entries|
      ensures forall i :: 0 <= i < |entries| ==> plan[i] == (entries[i], InReach(ports, entries[i].offset))
    {
      plan := [];
      for i := 0 to |entries|
        invariant |plan| == i
        invariant forall k :: 0 <= k < i ==> plan[k] == (entries[k], InReach(ports, entries[k].offset))
      {
        ClassifyAgrees(ports, entries[i].offset);
        plan := plan + [(entries[i], Reachable(Classify(ports, entries[i].offset)))];
      }
    }

    /** The post-init loop: classifies and applies in one pass. */
    method ApplyAuspma(entries: seq<Entry>, health: nat -> Health) returns (ok: bool, applied: nat)
      modifies this
      ensures AppliedUpTo(old(mem), mem, base, Selected(ports, entries), applied, ok)
      ensures ok <==> AllWell(ports, entries, health, |entries|)
    {
      hide Apply, Classify, Reachable, InReach, PatchOf, Selected, Progress, AppliedUpTo, Sizable, Width;
      NothingSelected(ports, entries);
      assert AllWell(ports, entries, health, 0);
      hide AllWell;
      ghost var sel := Selected(ports, entries);
      ProgressStart(mem, base, sel);
      applied := 0;
      for i := 0 to |entries|
        invariant applied <= |sel| && Selected(ports, entries[..i]) == sel[..applied]
        invariant Progress(old(mem), mem, base, sel, applied)
        invariant AllWell(ports, entries, health, i)
      {
        Advance(ports, entries, i, applied);
        WellNext(ports, entries, health, i);
        var e := entries[i];
        ClassifyAgrees(ports, e.offset);
        if !Reachable(Classify(ports, e.offset)) { continue; }
        ProgressStep(old(mem), mem, base, sel, applied);
        if !Width(e.size) { return false, applied; }
        MaskOp(e, health(i));
        if !health(i).Fine? { return false, applied; }
        applied := applied + 1;
      }
      AllSelected(ports, entries, applied);
      ProgressEnd(old(mem), mem, base, sel);
      ok := true;
    }

  }
}
