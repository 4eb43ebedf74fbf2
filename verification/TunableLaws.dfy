/** Laws of tunable lists: where they may write, and when the 32-bit applier agrees with the sized one. */
module TunableLaws {
  import opened Mmio
  import opened Tunables

  // ------------------------------------------------------------------ slices

  /** The `k`-th 0x8000-byte range of the window. */
  predicate InRange(x: int, k: int) {
    SLICE_STRIDE * k <= x < SLICE_STRIDE * (k + 1)
  }

  /** The slices tile the window: the first range is shared, each of the other three belongs to one port,
      and everything else is outside. */
  lemma SlicesTile(ports: seq<bool>, x: int)
    ensures Classify(ports, x).Shared? <==> InRange(x, 0)
    ensures forall i :: 0 <= i < 3 ==>
      (Classify(ports, x) == PortSlice(i, i < |ports| && ports[i]) <==> InRange(x, i + 1))
    ensures Classify(ports, x).OutOfWindow? <==> x < 0 || x >= WINDOW_SIZE
  {
  }

  /** The entry ends inside the slice it starts in. */
  predicate Fits(e: Entry) {
    e.offset % SLICE_STRIDE + e.size <= SLICE_STRIDE
  }

  /** Every byte the entry covers lies in the slice its first byte lies in. */
  ghost predicate StaysInSlice(ports: seq<bool>, e: Entry) {
    forall x :: e.offset <= x < e.offset + e.size ==> Classify(ports, x) == Classify(ports, e.offset)
  }

  lemma RangeOf(x: int) returns (k: int)
    ensures InRange(x, k) && x % SLICE_STRIDE == x - SLICE_STRIDE * k
    ensures 0 <= x < WINDOW_SIZE ==> 0 <= k < 4
  {
    k := x / SLICE_STRIDE;
  }

  /** The place of the `k`-th range. */
  function PlaceOf(ports: seq<bool>, k: nat): Place {
    if k == 0 then Shared else PortSlice(k - 1, k - 1 < |ports| && ports[k - 1])
  }

  lemma PlaceOfRange(ports: seq<bool>, x: int, k: nat)
    requires k < 4
    ensures Classify(ports, x) == PlaceOf(ports, k) <==> InRange(x, k)
  {
    if k == 0 {} else if k == 1 {} else if k == 2 {} else {}
  }

  lemma SameRange(ports: seq<bool>, a: int, x: int, k: int)
    requires 0 <= k < 4 && InRange(a, k)
    ensures Classify(ports, x) == Classify(ports, a) <==> InRange(x, k)
  {
    hide Classify, InRange, PlaceOf;
    PlaceOfRange(ports, a, k);
    PlaceOfRange(ports, x, k);
  }

  /** Looking only at the start offset is right exactly for the entries that fit. */
  lemma StartOffsetDecidesIff(ports: seq<bool>, e: Entry)
    requires 0 <= e.offset < 0x2_0000 && 0 < e.size
    ensures StaysInSlice(ports, e) <==> Fits(e)
  {
    var k := RangeOf(e.offset);
    if Fits(e) {
      forall x | e.offset <= x < e.offset + e.size ensures Classify(ports, x) == Classify(ports, e.offset) {
        SameRange(ports, e.offset, x, k);
      }
    } else {
      var next := SLICE_STRIDE * (k + 1);
      SameRange(ports, e.offset, next, k);
      assert e.offset <= next < e.offset + e.size;
    }
  }

  lemma AlignedFits(e: Entry)
    requires Width(e.size) && e.offset % e.size == 0
    ensures Fits(e)
  {
    if e.size == 1 {} else if e.size == 2 { EvenFits(e.offset, 2); } else if e.size == 4 { EvenFits(e.offset, 4); }
    else { EvenFits(e.offset, 8); }
  }

  lemma EvenFits(x: int, size: nat)
    requires (size == 2 || size == 4 || size == 8) && x % size == 0
    ensures x % SLICE_STRIDE + size <= SLICE_STRIDE
  {
    if size == 2 {} else if size == 4 {} else {}
  }

  // ------------------------------------------------------- what an entry may not touch

  /** Mask and value are zero in every byte of the entry that is in an inactive slice or outside the window. */
  ghost predicate Harmless(ports: seq<bool>, e: Entry) {
    forall j: nat :: j < e.size && !InReach(ports, e.offset + j) ==>
      ByteAt(e.mask, j) == 0 && ByteAt(e.value, j) == 0
  }

  lemma ZeroHasNoBit(k: nat)
    ensures !Bit(0, k)
  {
  }

  lemma SomeBit(b: bv8) returns (k: nat)
    requires b != 0
    ensures k < 8 && Bit(b, k)
  {
    hide Bit;
    if forall i: nat :: i < 8 ==> !Bit(b, i) {
      forall i: nat | i < 8 ensures Bit(b, i) == Bit(0, i) { ZeroHasNoBit(i); }
      BitsDetermine(b, 0);
      assert false;
    }
    k :| k < 8 && Bit(b, k);
  }

  lemma {:induction false} TouchedByNone(ps: seq<Patch>, x: int, k: nat)
    requires forall i :: 0 <= i < |ps| ==> Touch(ps[i], x, k).None?
    ensures LastTouch(ps, x, k).None?
  {
    hide Touch;
    if ps != [] { TouchedByNone(ps[..|ps| - 1], x, k); }
  }

  lemma {:induction false} TouchedBySome(ps: seq<Patch>, i: nat, x: int, k: nat)
    requires i < |ps| && Touch(ps[i], x, k).Some?
    ensures LastTouch(ps, x, k).Some?
  {
    hide Touch;
    if i < |ps| - 1 { TouchedBySome(ps[..|ps| - 1], i, x, k); }
  }

  lemma HarmlessTouchesNot(base: int, ports: seq<bool>, e: Entry, x: int, k: nat)
    requires Harmless(ports, e) && !InReach(ports, x)
    ensures Touch(PatchOf(base, e), base + x, k).None?
  {
    hide ByteAt, Bit, Classify, InReach;
    ZeroHasNoBit(k);
    if e.offset <= x < e.offset + e.size { assert e.offset + (x - e.offset) == x; }
  }

  /** Harmless entries leave every unreachable byte as it was. */
  lemma HarmlessKeeps(m: Mem, base: int, ports: seq<bool>, sel: seq<Entry>, x: int)
    requires Sizable(sel) && forall i :: 0 <= i < |sel| ==> Harmless(ports, sel[i])
    requires !InReach(ports, x)
    ensures ApplyAll(m, Patches(base, sel))[base + x] == m[base + x]
  {
    hide Bit, Classify, InReach, Harmless, ApplyAll, LastTouch, Touch, PatchOf;
    var ps := Patches(base, sel);
    PatchesSized(base, sel);
    var before, after := m[base + x], ApplyAll(m, ps)[base + x];
    forall k: nat | k < 8 ensures Bit(after, k) == Bit(before, k) {
      forall i | 0 <= i < |ps| ensures Touch(ps[i], base + x, k).None? {
        HarmlessTouchesNot(base, ports, sel[i], x, k);
      }
      TouchedByNone(ps, base + x, k);
      LastTouchDecides(m, ps, base + x, k);
    }
    BitsDetermine(after, before);
  }

  lemma PatchesSized(base: int, sel: seq<Entry>)
    requires Sizable(sel)
    ensures Sized(Patches(base, sel))
  {
  }

  /** A memory whose byte at `x` has the bit, or has it not. */
  lemma ProbeBit(x: int, k: nat, want: bool) returns (m: Mem)
    requires k < 8
    ensures Bit(m[x], k) == want
  {
    m := ProbeMemory(x, if want then 0xff else 0);
    if want { AllOnesHave(k); } else { ZeroHasNoBit(k); }
  }

  lemma AllOnesHave(k: nat)
    requires k < 8
    ensures Bit(0xff, k)
  {
  }

  /** An entry that is not harmless changes an unreachable byte of some memory. */
  lemma HarmfulLeaks(base: int, ports: seq<bool>, sel: seq<Entry>, i: nat) returns (m: Mem, x: int)
    requires Sizable(sel) && i < |sel| && !Harmless(ports, sel[i])
    ensures !InReach(ports, x) && ApplyAll(m, Patches(base, sel))[base + x] != m[base + x]
  {
    hide ByteAt, Bit, Classify, InReach, ApplyAll, LastTouch;
    var e, ps := sel[i], Patches(base, sel);
    PatchesSized(base, sel);
    var j: nat :| j < e.size && !InReach(ports, e.offset + j) &&
      !(ByteAt(e.mask, j) == 0 && ByteAt(e.value, j) == 0);
    x := e.offset + j;
    var k := SomeBit(if ByteAt(e.value, j) != 0 then ByteAt(e.value, j) else ByteAt(e.mask, j));
    assert base + x - ps[i].addr == j;
    TouchedBySome(ps, i, base + x, k);
    m := ProbeBit(base + x, k, !LastTouch(ps, base + x, k).value);
    LastTouchDecides(m, ps, base + x, k);
  }

  /** The slice frame, exactly: applying the selected entries keeps every byte of every inactive slice and outside the
      window, on every memory, if and only if no entry has a mask or value bit there. */
  lemma FrameIff(base: int, ports: seq<bool>, sel: seq<Entry>)
    requires Sizable(sel)
    ensures (forall m: Mem, x: int :: !InReach(ports, x) ==>
               ApplyAll(m, Patches(base, sel))[base + x] == m[base + x])
            <==> (forall i :: 0 <= i < |sel| ==> Harmless(ports, sel[i]))
  {
    hide Classify, InReach, Harmless, ApplyAll, Patches, Sizable;
    if forall i :: 0 <= i < |sel| ==> Harmless(ports, sel[i]) {
      forall m: Mem, x: int | !InReach(ports, x)
        ensures ApplyAll(m, Patches(base, sel))[base + x] == m[base + x]
      {
        HarmlessKeeps(m, base, ports, sel, x);
      }
    } else {
      var i :| 0 <= i < |sel| && !Harmless(ports, sel[i]);
      var m, x := HarmfulLeaks(base, ports, sel, i);
    }
  }

  /** No applier, however its run ends, changes a byte of an inactive slice or outside the window, as long as the
      entries of known size that it does not skip are harmless there. */
  lemma UnreachableUntouched(
      m: Mem, m': Mem, base: int, ports: seq<bool>, entries: seq<Entry>, done: nat, ok: bool, x: int)
    requires AppliedUpTo(m, m', base, Selected(ports, entries), done, ok)
    requires forall e :: e in Selected(ports, entries) && Width(e.size) ==> Harmless(ports, e)
    requires !InReach(ports, x)
    ensures m'[base + x] == m[base + x]
  {
    hide Classify, InReach, Selected, Harmless, ApplyAll, Patches, Width;
    var sel := Selected(ports, entries);
    forall n | 0 <= n <= |sel| && Sizable(sel[..n])
      ensures ApplyAll(m, Patches(base, sel[..n]))[base + x] == m[base + x]
    {
      forall i | 0 <= i < n ensures Harmless(ports, sel[..n][i]) {
        assert Width(sel[..n][i].size) && sel[i] in sel;
      }
      HarmlessKeeps(m, base, ports, sel[..n], x);
    }
    if done < |sel| && Width(sel[done].size) { SizableOneMore(sel, done); }
  }

  lemma ReachesAsItsStart(ports: seq<bool>, e: Entry, x: int)
    requires StaysInSlice(ports, e) && e.offset <= x < e.offset + e.size
    ensures InReach(ports, x) <==> InReach(ports, e.offset)
  {
    hide Classify, InReach, Reachable;
    ClassifyAgrees(ports, e.offset);
    ClassifyAgrees(ports, x);
  }

  /** Entries that fit their slices are harmless when they are selected. */
  lemma FittingIsHarmless(ports: seq<bool>, e: Entry)
    requires Fits(e) && InReach(ports, e.offset)
    ensures Harmless(ports, e)
  {
    assert 0 <= e.offset < 0x2_0000;
    hide ByteAt, Classify, InReach, Reachable, Fits, StaysInSlice;
    if e.size > 0 { StartOffsetDecidesIff(ports, e); }
    forall x | e.offset <= x < e.offset + e.size ensures InReach(ports, x) {
      ReachesAsItsStart(ports, e, x);
    }
  }

  /** In particular naturally aligned entries. */
  lemma AlignedEntriesStayOut(
      m: Mem, m': Mem, base: int, ports: seq<bool>, entries: seq<Entry>, done: nat, ok: bool, x: int)
    requires AppliedUpTo(m, m', base, Selected(ports, entries), done, ok)
    requires forall e :: e in Selected(ports, entries) && Width(e.size) ==> e.offset % e.size == 0
    requires !InReach(ports, x)
    ensures m'[base + x] == m[base + x]
  {
    hide Classify, Selected, AppliedUpTo, InReach, Fits, Width, Harmless;
    SelectedMembers(ports, entries);
    forall e | e in Selected(ports, entries) && Width(e.size) ensures Harmless(ports, e) {
      AlignedFits(e);
      FittingIsHarmless(ports, e);
    }
    UnreachableUntouched(m, m', base, ports, entries, done, ok, x);
  }

  /** An entry that starts at the end of an active slice is applied and writes into the inactive one behind it. */
  lemma StraddlingEntryLeaks(m: Mem, base: int)
    ensures var ports, e := [true, false, true], Entry(0xfffe, 4, 0, 0xffff_ffff);
      && Selected(ports, [e]) == [e] && !InReach(ports, 0x10000)
      && ApplyAll(m, Patches(base, [e]))[base + 0x10000] == 0xff
  {
    var e := Entry(0xfffe, 4, 0, 0xffff_ffff);
    assert [e][..0] == [] && Selected([true, false, true], [e]) == [e];
    assert !InReach([true, false, true], 0x10000);
    var ps := Patches(base, [e]);
    hide ByteAt, MaskedByte, Apply, Classify;
    assert ps[..0] == [] && ApplyAll(m, ps) == Apply(m, ps[0]);
    ApplyByte(m, ps[0], base + 0x10000);
    ThirdByte();
    AllOnes(m[base + 0x10000], ByteAt(0, 2));
  }

  lemma ThirdByte()
    ensures ByteAt(0xffff_ffff, 2) == 0xff
  {
  }

  lemma AllOnes(pre: bv8, clr: bv8)
    ensures MaskedByte(pre, clr, 0xff) == 0xff
  {
  }

  // ------------------------------------------------------- the 32-bit applier

  /** The naked applier makes 32-bit accesses whatever the entry's size. */
  function WidePatches(base: int, entries: seq<Entry>): seq<Patch> {
    seq(|entries|, k requires 0 <= k < |entries| => Patch(base + entries[k].offset, 4, entries[k].mask, entries[k].value))
  }

  datatype Counts = Counts(stuck: nat, noOp: nat, partial: nat, skipped: nat, readFail: nat)

  function Sum(c: Counts): nat {
    c.stuck + c.noOp + c.partial + c.skipped + c.readFail
  }

  /** The tag of an entry whose write was attempted. */
  function Tagged(c: Counts, postOk: bool, pre: bv64, new_: bv64, post: bv64): (c': Counts)
    ensures Sum(c') == Sum(c) + 1
    ensures postOk && post == new_ ==> c' == c.(stuck := c.stuck + 1)
    ensures postOk && post == pre != new_ ==> c' == c.(noOp := c.noOp + 1)
    ensures c'.skipped == c.skipped
    ensures postOk && post != pre && post != new_ ==> c' == c.(partial := c.partial + 1)
    ensures !postOk ==> c' == c.(readFail := c.readFail + 1)
  {
    if !postOk then c.(readFail := c.readFail + 1)
    else if post == new_ then c.(stuck := c.stuck + 1)
    else if post == pre then c.(noOp := c.noOp + 1)
    else c.(partial := c.partial + 1)
  }

  /** How the accesses of one entry go: whether the two reads answer, whether the store happens, and whether the host is
      still there after each of the three. */
  datatype Luck = Luck(preOk: bool, preAlive: bool, stored: bool, writeAlive: bool, postOk: bool, postAlive: bool)

  /** How many of the first `n` entries would change nothing when their turn comes. */
  ghost function Idle(m: Mem, base: int, entries: seq<Entry>, luck: nat -> Luck, n: nat): nat
    requires n <= |entries|
  {
    if n == 0 then 0
    else
      var m' := ApplyAll(m, WidePatches(base, Stored(entries, luck, n - 1)));
      Idle(m, base, entries, luck, n - 1) + (if luck(n - 1).preOk && ChangesNothing(m', base, entries[n - 1]) then 1 else 0)
  }

  ghost predicate ChangesNothing(m: Mem, base: int, e: Entry) {
    Masked(Mmio.Read(m, base + e.offset, 4), e.mask, e.value) == Mmio.Read(m, base + e.offset, 4)
  }

  lemma NoneIdle(m: Mem, base: int, entries: seq<Entry>, luck: nat -> Luck)
    ensures Idle(m, base, entries, luck, 0) == 0 && NoneLost(m, base, entries, luck, 0)
  {
  }

  lemma IdleStep(m: Mem, m': Mem, base: int, entries: seq<Entry>, luck: nat -> Luck, i: nat)
    requires i < |entries| && m' == ApplyAll(m, WidePatches(base, Stored(entries, luck, i)))
    ensures var e := entries[i];
      var pre := Mmio.Read(m', base + e.offset, 4);
      Idle(m, base, entries, luck, i + 1) ==
      Idle(m, base, entries, luck, i) + (if luck(i).preOk && Masked(pre, e.mask, e.value) == pre then 1 else 0)
  {
    hide Masked, Mmio.Read, WidePatches, ApplyAll, Stored;
  }

  /** The accesses made for entry `k` lose the host. */
  ghost predicate Lost(m: Mem, base: int, entries: seq<Entry>, luck: nat -> Luck, k: nat)
    requires k < |entries|
  {
    var h, m' := luck(k), ApplyAll(m, WidePatches(base, Stored(entries, luck, k)));
    !h.preAlive || (h.preOk && !ChangesNothing(m', base, entries[k]) && !(h.writeAlive && h.postAlive))
  }

  /** The first `n` entries do not. */
  ghost predicate NoneLost(m: Mem, base: int, entries: seq<Entry>, luck: nat -> Luck, n: nat)
    requires n <= |entries|
  {
    forall k :: 0 <= k < n ==> !Lost(m, base, entries, luck, k)
  }

  lemma LostMeans(m: Mem, m': Mem, base: int, entries: seq<Entry>, luck: nat -> Luck, i: nat)
    requires i < |entries| && m' == ApplyAll(m, WidePatches(base, Stored(entries, luck, i)))
    ensures var e, h := entries[i], luck(i);
      var pre := Mmio.Read(m', base + e.offset, 4);
      Lost(m, base, entries, luck, i) <==>
      !h.preAlive || (h.preOk && Masked(pre, e.mask, e.value) != pre && !(h.writeAlive && h.postAlive))
    ensures NoneLost(m, base, entries, luck, i + 1) <==>
      NoneLost(m, base, entries, luck, i) && !Lost(m, base, entries, luck, i)
    ensures NoneLost(m, base, entries, luck, |entries|) ==> !Lost(m, base, entries, luck, i)
  {
    hide Masked, Mmio.Read, WidePatches, ApplyAll, Stored;
  }

  /** The entries among the first `n` whose pre-read answered and whose store, if one was due, happened. */
  function Stored(entries: seq<Entry>, luck: nat -> Luck, n: nat): seq<Entry>
    requires n <= |entries|
  {
    if n == 0 then []
    else Stored(entries, luck, n - 1) + (if luck(n - 1).preOk && luck(n - 1).stored then [entries[n - 1]] else [])
  }

  /** When nothing fails these are all entries. */
  lemma {:induction false} AllStored(entries: seq<Entry>, luck: nat -> Luck, n: nat)
    requires n <= |entries| && forall k :: 0 <= k < n ==> luck(k).preOk && luck(k).stored
    ensures Stored(entries, luck, n) == entries[..n]
  {
    if n > 0 {
      AllStored(entries, luck, n - 1);
      assert entries[..n] == entries[..n - 1] + [entries[n - 1]];
    }
  }

  /** The value has no bits above the 32 that the applier writes. */
  predicate Narrow(e: Entry) {
    ByteAt(e.value, 4) == 0 && ByteAt(e.value, 5) == 0 && ByteAt(e.value, 6) == 0 && ByteAt(e.value, 7) == 0
  }

  lemma NothingSet(clr: bv8)
    ensures MaskedByte(0, clr, 0) == 0
  {
  }

  /** Memory keeps such a word as it was written. */
  lemma NarrowReadsBack(m: Mem, a: int, e: Entry)
    requires Narrow(e)
    ensures var new_ := Masked(Mmio.Read(m, a, 4), e.mask, e.value); Mmio.Read(Write(m, a, 4, new_), a, 4) == new_
  {
    hide ByteAt, Masked, Mmio.Read, MaskedByte;
    var pre := Mmio.Read(m, a, 4);
    var new_ := Masked(pre, e.mask, e.value);
    forall k: nat | k < 8 ensures ByteAt(Mmio.Read(Write(m, a, 4, new_), a, 4), k) == ByteAt(new_, k) {
      BytesOfRead(Write(m, a, 4, new_), a, 4, k);
      if k >= 4 {
        BytesOfRead(m, a, 4, k);
        MaskedBytes(pre, e.mask, e.value, k);
        NothingSet(ByteAt(e.mask, k));
      }
    }
    BytesDetermine(Mmio.Read(Write(m, a, 4, new_), a, 4), new_);
  }

  /** The tags of the first `n` entries. Nothing is partial when every value is narrow, and if all writes then happen,
      nothing is a no-op. Without any store nothing sticks. Reads that all answer give no read failure, and pre-reads
      that all fail give nothing else. */
  ghost predicate TagsFit(entries: seq<Entry>, luck: nat -> Luck, n: nat, c: Counts)
    requires n <= |entries|
  {
    && ((forall k :: 0 <= k < n ==> Narrow(entries[k])) ==> c.partial == 0)
    && ((forall k :: 0 <= k < n ==> Narrow(entries[k]) && luck(k).stored) ==> c.noOp == 0)
    && ((forall k :: 0 <= k < n ==> !luck(k).stored) ==> c.stuck == c.partial == 0)
    && ((forall k :: 0 <= k < n ==> luck(k).preOk && luck(k).postOk) ==> c.readFail == 0)
    && ((forall k :: 0 <= k < n ==> !luck(k).preOk) ==> Sum(c) == c.readFail)
  }

  lemma NoTags(entries: seq<Entry>, luck: nat -> Luck)
    ensures var none := Counts(0, 0, 0, 0, 0); TagsFit(entries, luck, 0, none) && Sum(none) == 0
  {
  }

  lemma TagsFitAll(entries: seq<Entry>, luck: nat -> Luck, n: nat, c: Counts)
    requires n <= |entries| && TagsFit(entries, luck, n, c)
    ensures TagsFit(entries, luck, |entries|, c)
  {
    hide Narrow;
  }

  lemma TagWithoutWrite(entries: seq<Entry>, luck: nat -> Luck, i: nat, c: Counts)
    requires i < |entries| && TagsFit(entries, luck, i, c)
    ensures var c' := if luck(i).preOk then c.(skipped := c.skipped + 1) else c.(readFail := c.readFail + 1);
      TagsFit(entries, luck, i + 1, c') && Sum(c') == Sum(c) + 1
  {
    hide Narrow;
  }

  lemma TagAfterWrite(
      entries: seq<Entry>, luck: nat -> Luck, i: nat, c: Counts, pre: bv64, new_: bv64, post: bv64)
    requires i < |entries| && TagsFit(entries, luck, i, c) && luck(i).preOk
    requires if !luck(i).stored then post == pre != new_ else Narrow(entries[i]) ==> post == new_
    ensures TagsFit(entries, luck, i + 1, Tagged(c, luck(i).postOk, pre, new_, post))
  {
    hide Narrow;
  }

  class Block {
    const base: int
    var mem: Mem

    constructor (base: int, mem: Mem)
      ensures this.base == base && this.mem == mem
    {
      this.base, this.mem := base, mem;
    }

    /** Read, compute, write only if something would change, read back and classify; stops when the host is gone. */
    method NakedApply(entries: seq<Entry>, luck: nat -> Luck) returns (counts: Counts, done: nat, complete: bool)
      modifies this
      ensures done <= |entries| && mem == ApplyAll(old(mem), WidePatches(base, Stored(entries, luck, done)))
      ensures if complete then Sum(counts) == done == |entries| else Sum(counts) <= done
      ensures complete <==> NoneLost(old(mem), base, entries, luck, |entries|)
      ensures !complete ==>
        exists k :: 0 <= k < |entries| && Lost(old(mem), base, entries, luck, k) && NoneLost(old(mem), base, entries, luck, k)
                    && done == if luck(k).preAlive then k + 1 else k
      ensures TagsFit(entries, luck, |entries|, counts)
      ensures counts.skipped == Idle(old(mem), base, entries, luck, done)
    {
      hide *;
      NothingStored(old(mem), base, entries, luck);
      counts, complete := Counts(0, 0, 0, 0, 0), false;
      NoTags(entries, luck);
      NoneIdle(old(mem), base, entries, luck);
      for i := 0 to |entries|
        invariant mem == ApplyAll(old(mem), WidePatches(base, Stored(entries, luck, i)))
        invariant Sum(counts) == i && !complete
        invariant TagsFit(entries, luck, i, counts)
        invariant counts.skipped == Idle(old(mem), base, entries, luck, i)
        invariant NoneLost(old(mem), base, entries, luck, i)
      {
        done := i;
        var e, h := entries[i], luck(i);
        var addr := base + e.offset;
        StoredStep(old(mem), mem, base, entries, luck, i);
        IdleStep(old(mem), mem, base, entries, luck, i);
        TagsFitAll(entries, luck, i, counts);
        LostMeans(old(mem), mem, base, entries, luck, i);
        if !h.preAlive { return; }
        TagWithoutWrite(entries, luck, i, counts);
        if !h.preOk {
          counts := counts.(readFail := counts.readFail + 1);
          continue;
        }
        var pre := Mmio.Read(mem, addr, 4);
        var new_ := Masked(pre, e.mask, e.value);
        if new_ == pre {
          counts := counts.(skipped := counts.skipped + 1);
          continue;
        }
        if Narrow(e) { NarrowReadsBack(mem, addr, e); }
        if h.stored { mem := Write(mem, addr, 4, new_); }
        done := i + 1;
        if !h.writeAlive { return; }
        if !h.postAlive { return; }
        var post := Mmio.Read(mem, addr, 4);
        TagAfterWrite(entries, luck, i, counts, pre, new_, post);
        counts := Tagged(counts, h.postOk, pre, new_, post);
      }
      done, complete := |entries|, true;
    }
  }

  lemma NothingStored(m: Mem, base: int, entries: seq<Entry>, luck: nat -> Luck)
    ensures m == ApplyAll(m, WidePatches(base, Stored(entries, luck, 0)))
  {
  }

  lemma WideOneMore(m: Mem, base: int, es: seq<Entry>, e: Entry)
    ensures ApplyAll(m, WidePatches(base, es + [e])) ==
            Apply(ApplyAll(m, WidePatches(base, es)), Patch(base + e.offset, 4, e.mask, e.value))
  {
    hide Apply;
    assert WidePatches(base, es + [e])[..|es|] == WidePatches(base, es);
  }

  lemma StoredStep(m: Mem, m': Mem, base: int, entries: seq<Entry>, luck: nat -> Luck, i: nat)
    requires i < |entries| && m' == ApplyAll(m, WidePatches(base, Stored(entries, luck, i)))
    ensures var e, addr, h := entries[i], base + entries[i].offset, luck(i);
      var pre := Mmio.Read(m', addr, 4);
      var new_ := Masked(pre, e.mask, e.value);
      var next := ApplyAll(m, WidePatches(base, Stored(entries, luck, i + 1)));
      && next == (if h.preOk && h.stored then Write(m', addr, 4, new_) else m')
      && (new_ == pre ==> next == m')
  {
    hide Masked, Mmio.Read, Write, WidePatches, ApplyAll;
    var e, addr := entries[i], base + entries[i].offset;
    WideOneMore(m, base, Stored(entries, luck, i), e);
    WriteBack(m', addr, 4, Mmio.Read(m', addr, 4));
    assert Stored(entries, luck, i) + [] == Stored(entries, luck, i);
  }

  /** The bytes `k` of mask and value that only one of the two access widths reaches are all zero. */
  ghost predicate FitsWord(e: Entry) {
    forall k: nat :: (k < e.size && 4 <= k < 8) || (e.size <= k < 4) ==> ByteAt(e.mask, k) == 0 && ByteAt(e.value, k) == 0
  }

  lemma NeutralByte(b: bv8)
    ensures MaskedByte(b, 0, 0) == b
  {
  }

  lemma OnlyNeutral(clr: bv8, set_: bv8)
    requires MaskedByte(0, clr, set_) == 0 && MaskedByte(0xff, clr, set_) == 0xff
    ensures clr == 0 && set_ == 0
  {
  }

  lemma SameByte(m: Mem, a: int, e: Entry, x: int)
    requires e.size <= 8 && FitsWord(e)
    ensures Apply(m, Patch(a, 4, e.mask, e.value))[x] == Apply(m, Patch(a, e.size, e.mask, e.value))[x]
  {
    hide ByteAt, MaskedByte, Apply;
    ApplyByte(m, Patch(a, 4, e.mask, e.value), x);
    ApplyByte(m, Patch(a, e.size, e.mask, e.value), x);
    NeutralByte(m[x]);
  }

  function Blank(a: int): bv8 {
    0
  }

  /** A memory that holds `b` at `x`. */
  lemma ProbeMemory(x: int, b: bv8) returns (m: Mem)
    ensures m[x] == b
  {
    var zero: Mem := imap a: int :: Blank(a);
    m := zero[x := b];
  }

  lemma ProbeByte(a: int, e: Entry, k: nat, b: bv8)
    requires e.size <= 8 && ((k < e.size && 4 <= k < 8) || (e.size <= k < 4))
    requires forall m: Mem :: Apply(m, Patch(a, 4, e.mask, e.value)) == Apply(m, Patch(a, e.size, e.mask, e.value))
    ensures MaskedByte(b, ByteAt(e.mask, k), ByteAt(e.value, k)) == b
  {
    var m := ProbeMemory(a + k, b);
    hide ByteAt, MaskedByte, Apply;
    ApplyByte(m, Patch(a, 4, e.mask, e.value), a + k);
    ApplyByte(m, Patch(a, e.size, e.mask, e.value), a + k);
  }

  /** For an entry of another size the 32-bit applier does what the entry says, on every memory, exactly
      when mask and value are zero in the bytes only one of the two widths reaches. */
  lemma NakedAgreesIff(a: int, e: Entry)
    requires e.size <= 8
    ensures (forall m: Mem :: Apply(m, Patch(a, 4, e.mask, e.value)) == Apply(m, Patch(a, e.size, e.mask, e.value)))
            <==> FitsWord(e)
  {
    hide ByteAt, MaskedByte, Apply;
    if FitsWord(e) {
      forall m: Mem ensures Apply(m, Patch(a, 4, e.mask, e.value)) == Apply(m, Patch(a, e.size, e.mask, e.value)) {
        SameApply(m, a, e);
      }
    }
    if forall m: Mem :: Apply(m, Patch(a, 4, e.mask, e.value)) == Apply(m, Patch(a, e.size, e.mask, e.value)) {
      forall k: nat | (k < e.size && 4 <= k < 8) || (e.size <= k < 4)
        ensures ByteAt(e.mask, k) == 0 && ByteAt(e.value, k) == 0
      {
        ProbeByte(a, e, k, 0);
        ProbeByte(a, e, k, 0xff);
        OnlyNeutral(ByteAt(e.mask, k), ByteAt(e.value, k));
      }
    }
  }

  lemma SameApply(m: Mem, a: int, e: Entry)
    requires e.size <= 8 && FitsWord(e)
    ensures Apply(m, Patch(a, 4, e.mask, e.value)) == Apply(m, Patch(a, e.size, e.mask, e.value))
  {
    hide Apply, FitsWord;
    forall x: int
      ensures Apply(m, Patch(a, 4, e.mask, e.value))[x] == Apply(m, Patch(a, e.size, e.mask, e.value))[x]
    {
      SameByte(m, a, e, x);
    }
    SameBytes(Apply(m, Patch(a, 4, e.mask, e.value)), Apply(m, Patch(a, e.size, e.mask, e.value)));
  }

  /** So on a list of such entries, 4-byte ones in particular, skipping unchanged words reaches the same memory
      as applying every entry. */
  lemma {:induction false} NakedAgrees(m: Mem, base: int, entries: seq<Entry>)
    requires forall k :: 0 <= k < |entries| ==> entries[k].size <= 8 && FitsWord(entries[k])
    ensures ApplyAll(m, WidePatches(base, entries)) == ApplyAll(m, Patches(base, entries))
  {
    hide Apply, FitsWord;
    if entries != [] {
      var init, e := entries[..|entries| - 1], entries[|entries| - 1];
      NakedAgrees(m, base, init);
      assert WidePatches(base, entries)[..|init|] == WidePatches(base, init);
      assert Patches(base, entries)[..|init|] == Patches(base, init);
      SameApply(ApplyAll(m, Patches(base, init)), base + e.offset, e);
    }
  }

  lemma FourByteFits(e: Entry)
    requires e.size == 4
    ensures FitsWord(e)
  {
  }

  /** A whole pass after any run of an applier, however far that run got, ends where one clean pass ends. After a run
      that got to the end this says that a second pass changes nothing. */
  lemma RetryEndsClean(m: Mem, m': Mem, base: int, sel: seq<Entry>, done: nat, ok: bool)
    requires AppliedUpTo(m, m', base, sel, done, ok) && Sizable(sel)
    ensures ApplyAll(m', Patches(base, sel)) == ApplyAll(m, Patches(base, sel))
  {
    hide ApplyAll, Sizable, Width;
    PatchesSized(base, sel);
    var ps := Patches(base, sel);
    PassAfterPart(m, ps, done);
    assert ps[..done] == Patches(base, sel[..done]);
    if done < |sel| {
      PassAfterPart(m, ps, done + 1);
      assert ps[..done + 1] == Patches(base, sel[..done + 1]);
    }
  }

  /** A second whole pass changes nothing, whatever the entries' order, overlaps and conflicts. */
  lemma SecondPassChangesNothing(m: Mem, base: int, entries: seq<Entry>)
    requires Sizable(entries)
    ensures var once := ApplyAll(m, Patches(base, entries)); ApplyAll(once, Patches(base, entries)) == once
  {
    hide ApplyAll;
    assert entries[..|entries|] == entries;
    RetryEndsClean(m, ApplyAll(m, Patches(base, entries)), base, entries, |entries|, true);
  }

  /** What one entry makes of bit `k` of the byte at `x` from the window base. */
  function EntryBit(e: Entry, x: int, k: nat): Option<bool> {
    if !(e.offset <= x < e.offset + e.size) then None
    else if Bit(ByteAt(e.value, x - e.offset), k) then Some(true)
    else if Bit(ByteAt(e.mask, x - e.offset), k) then Some(false)
    else None
  }

  function LastEntryBit(entries: seq<Entry>, x: int, k: nat): Option<bool> {
    if entries == [] then None
    else
      var last := EntryBit(entries[|entries| - 1], x, k);
      if last.Some? then last else LastEntryBit(entries[..|entries| - 1], x, k)
  }

  lemma EntryTouches(base: int, e: Entry, x: int, k: nat)
    ensures Touch(PatchOf(base, e), base + x, k) == EntryBit(e, x, k)
  {
    hide ByteAt, Bit;
  }

  lemma {:induction false} LastEntryTouches(base: int, entries: seq<Entry>, x: int, k: nat)
    ensures LastTouch(Patches(base, entries), base + x, k) == LastEntryBit(entries, x, k)
  {
    hide Touch, EntryBit, PatchOf;
    if entries != [] {
      var front, ps := entries[..|entries| - 1], Patches(base, entries);
      LastEntryTouches(base, front, x, k);
      EntryTouches(base, entries[|entries| - 1], x, k);
      assert ps[..|ps| - 1] == Patches(base, front);
    }
  }

  /** Each bit ends as the last entry that touches it says: set if in its value, else cleared if in its
      mask; a bit no entry touches is as it was. */
  lemma LastEntryDecides(m: Mem, base: int, entries: seq<Entry>, x: int, k: nat)
    requires Sizable(entries) && k < 8
    ensures Bit(ApplyAll(m, Patches(base, entries))[base + x], k) ==
            LastEntryBit(entries, x, k).GetOr(Bit(m[base + x], k))
  {
    hide *;
    var ps := Patches(base, entries);
    PatchesSized(base, entries);
    LastTouchDecides(m, ps, base + x, k);
    LastEntryTouches(base, entries, x, k);
  }
}
