/** The on-CPU applier: a register-level loop over a packed table of 32-byte rows. */
module PhyIpStub {
  import opened Mmio
  import opened Tunables
  import TunableLaws

  // ------------------------------------------------------- numbers in registers

  /** The register that holds the number `n`, modulo 2^64. */
  function Word(n: nat): bv64 {
    if n == 0 then 0 else Twice(Word(n / 2), n % 2 == 1)
  }

  function Twice(w: bv64, odd: bool): bv64 {
    (w << 1) | (if odd then 1 else 0)
  }

  function Succ(w: bv64): bv64 {
    w + 1
  }

  lemma TwiceEven(w: bv64)
    ensures Succ(Twice(w, false)) == Twice(w, true)
  {
  }

  lemma TwiceOdd(w: bv64)
    ensures Succ(Twice(w, true)) == Twice(Succ(w), false)
  {
  }

  lemma TwiceZero()
    ensures Twice(0, true) == Succ(0)
  {
  }

  lemma WordTwice(q: nat, odd: bool)
    requires q > 0 || odd
    ensures Word(2 * q + (if odd then 1 else 0)) == Twice(Word(q), odd)
  {
    hide Twice;
    var n := 2 * q + (if odd then 1 else 0);
    assert n / 2 == q && (n % 2 == 1) == odd;
  }

  /** Adding one to the register counts one more. */
  lemma {:induction false} WordNext(n: nat)
    ensures Succ(Word(n)) == Word(n + 1)
  {
    hide Twice, Succ;
    var q := n / 2;
    if n == 0 {
      TwiceZero();
    } else if n % 2 == 0 {
      TwiceEven(Word(q));
      WordTwice(q, true);
    } else {
      WordNext(q);
      TwiceOdd(Word(q));
      WordTwice(q + 1, false);
    }
  }

  function Low(k: nat): bv64 {
    if k == 0 then 0 else Twice(Low(k - 1), true)
  }

  function Pow2(k: nat): nat {
    if k == 0 then 1 else 2 * Pow2(k - 1)
  }

  lemma TwiceWithin(w: bv64, m: bv64, odd: bool)
    requires w & !m == 0
    ensures Twice(w, odd) & !Twice(m, true) == 0
  {
  }

  lemma {:induction false} WordWithin(n: nat, k: nat)
    requires n < Pow2(k)
    ensures Word(n) & !Low(k) == 0
    decreases k
  {
    if n == 0 {
      Nothing(Low(k));
    } else {
      hide Twice;
      WordWithin(n / 2, k - 1);
      TwiceWithin(Word(n / 2), Low(k - 1), n % 2 == 1);
    }
  }

  lemma Nothing(m: bv64)
    ensures 0 & !m == 0
  {
  }

  /** The number a register holds. */
  function Number(w: bv64): nat {
    if w == 0 then 0 else 2 * Number(Halved(w)) + (if Odd(w) then 1 else 0)
  }

  function Halved(w: bv64): (h: bv64)
    ensures w != 0 ==> h < w
  {
    w >> 1
  }

  predicate Odd(w: bv64) {
    w & 1 == 1
  }

  lemma TwiceParts(w: bv64, odd: bool)
    requires w & !0x7fff_ffff_ffff_ffff == 0
    ensures Halved(Twice(w, odd)) == w && Odd(Twice(w, odd)) == odd && (Twice(w, odd) == 0 <==> w == 0 && !odd)
  {
  }

  lemma LowSixtyThree()
    ensures Low(63) == 0x7fff_ffff_ffff_ffff && Pow2(63) == 0x8000_0000_0000_0000
  {
    LowSixteen();
    assert Low(20) == 0xf_ffff && Pow2(20) == 0x10_0000;
    assert Low(24) == 0xff_ffff && Pow2(24) == 0x100_0000;
    assert Low(28) == 0xfff_ffff && Pow2(28) == 0x1000_0000;
    assert Low(32) == 0xffff_ffff && Pow2(32) == 0x1_0000_0000;
    assert Low(36) == 0xf_ffff_ffff && Pow2(36) == 0x10_0000_0000;
    assert Low(40) == 0xff_ffff_ffff && Pow2(40) == 0x100_0000_0000;
    assert Low(44) == 0xfff_ffff_ffff && Pow2(44) == 0x1000_0000_0000;
    assert Low(48) == 0xffff_ffff_ffff && Pow2(48) == 0x1_0000_0000_0000;
    assert Low(52) == 0xf_ffff_ffff_ffff && Pow2(52) == 0x10_0000_0000_0000;
    assert Low(56) == 0xff_ffff_ffff_ffff && Pow2(56) == 0x100_0000_0000_0000;
    assert Low(60) == 0xfff_ffff_ffff_ffff && Pow2(60) == 0x1000_0000_0000_0000;
  }

  /** A register holds every number below 2^64. */
  lemma {:induction false} NumberOfWord(n: nat)
    requires n < 0x1_0000_0000_0000_0000
    ensures Number(Word(n)) == n
  {
    hide Twice, Halved, Odd;
    if n > 0 {
      NumberOfWord(n / 2);
      LowSixtyThree();
      WordWithin(n / 2, 63);
      hide Low, Pow2;
      TwiceParts(Word(n / 2), n % 2 == 1);
    }
  }

  // -------------------------------------------------------------- return codes

  const APPLIED: bv64 := 0xC0DE_0000
  const BAD_SIZE: bv64 := 0xDEAD_0003

  function Hi(ret: bv64): bv64 {
    (ret >> 16) & 0xffff
  }

  function Lo(ret: bv64): bv64 {
    ret & 0xffff
  }

  predicate Fits16(w: bv64) {
    w & !0xffff == 0
  }

  /** The host reads back success and the applied count exactly when the count register fits in 16 bits. */
  lemma DecodesIff(w: bv64)
    ensures Hi(APPLIED | w) == 0xC0DE && Lo(APPLIED | w) == w <==> Fits16(w)
  {
  }

  lemma LowSixteen()
    ensures Low(16) == 0xffff && Pow2(16) == 65536
  {
    assert Low(4) == 0xf && Pow2(4) == 16;
    assert Low(8) == 0xff && Pow2(8) == 256;
    assert Low(12) == 0xfff && Pow2(12) == 4096;
  }

  lemma CountDecodes(n: nat)
    requires n < 65536
    ensures Hi(APPLIED | Word(n)) == 0xC0DE && Lo(APPLIED | Word(n)) == Word(n)
  {
    LowSixteen();
    WordWithin(n, 16);
    hide Hi, Lo, Word, Low;
    DecodesIff(Word(n));
  }

  lemma BadSizeDecodes()
    ensures Hi(BAD_SIZE) == 0xDEAD && Lo(BAD_SIZE) == 3
  {
  }

  // -------------------------------------------------------------------- the table

  /** A table row: four little-endian 64-bit words. */
  datatype Row = Row(addr: bv64, mask: bv64, value: bv64, size: bv64)

  function Field(r: Row, f: nat): bv64 {
    if f == 0 then r.addr else if f == 1 then r.mask else if f == 2 then r.value else r.size
  }

  function PackedAt(rows: seq<Row>, p: nat): bv8
    requires p < 32 * |rows|
  {
    ByteAt(Field(rows[p / 32], (p % 32) / 8), p % 8)
  }

  function Pack(rows: seq<Row>): seq<bv8> {
    seq(32 * |rows|, p requires 0 <= p < 32 * |rows| => PackedAt(rows, p))
  }

  function LayOut(m: Mem, a: int, bytes: seq<bv8>): (m': Mem)
    ensures forall x: int :: m'[x] == if a <= x < a + |bytes| then bytes[x - a] else m[x]
  {
    if bytes == [] then m else LayOut(m, a, bytes[..|bytes| - 1])[a + |bytes| - 1 := bytes[|bytes| - 1]]
  }

  ghost predicate FieldAt(m: Mem, table: int, rows: seq<Row>, i: nat, f: nat)
    requires i < |rows|
  {
    Mmio.Read(m, table + 32 * i + 8 * f, 8) == Field(rows[i], f)
  }

  ghost predicate TableAt(m: Mem, table: int, rows: seq<Row>) {
    forall i, f :: 0 <= i < |rows| && 0 <= f < 4 ==> FieldAt(m, table, rows, i, f)
  }

  lemma PackedByte(rows: seq<Row>, i: nat, f: nat, k: nat)
    requires i < |rows| && f < 4 && k < 8
    ensures 0 <= 32 * i + 8 * f + k < |Pack(rows)|
    ensures Pack(rows)[32 * i + 8 * f + k] == ByteAt(Field(rows[i], f), k)
  {
    hide ByteAt, Field;
    IndexParts(i, f, k);
    assert Pack(rows)[32 * i + 8 * f + k] == PackedAt(rows, 32 * i + 8 * f + k);
  }

  lemma IndexParts(i: nat, f: nat, k: nat)
    requires f < 4 && k < 8
    ensures var p := 32 * i + 8 * f + k; p / 32 == i && (p % 32) / 8 == f && p % 8 == k
  {
    var p := 32 * i + 8 * f + k;
    Div32(i, 8 * f + k);
    Div8(f, k);
    Div8(4 * i + f, k);
    assert p == 32 * i + (8 * f + k) == 8 * (4 * i + f) + k;
  }

  lemma Div32(q: nat, r: nat)
    requires r < 32
    ensures (32 * q + r) / 32 == q && (32 * q + r) % 32 == r
  {
  }

  lemma Div8(q: nat, r: nat)
    requires r < 8
    ensures (8 * q + r) / 8 == q && (8 * q + r) % 8 == r
  {
  }

  /** Writing the packed rows to memory makes every field readable where the loop looks for it. */
  lemma PackedTableReadsBack(m: Mem, table: int, rows: seq<Row>)
    ensures TableAt(LayOut(m, table, Pack(rows)), table, rows)
  {
    var m' := LayOut(m, table, Pack(rows));
    hide Mmio.Read, ByteAt, Pack, LayOut, Field;
    forall i, f | 0 <= i < |rows| && 0 <= f < 4 ensures FieldAt(m', table, rows, i, f) {
      var a := table + 32 * i + 8 * f;
      forall k: nat | k < 8 ensures ByteAt(Mmio.Read(m', a, 8), k) == ByteAt(Field(rows[i], f), k) {
        BytesOfRead(m', a, 8, k);
        PackedByte(rows, i, f, k);
      }
      BytesDetermine(Mmio.Read(m', a, 8), Field(rows[i], f));
    }
  }

  // ---------------------------------------------------------------------- the loop

  predicate OkSize(size: bv64) {
    size == 4 || size == 2 || size == 1
  }

  function Bytes(size: bv64): nat {
    if size == 4 then 4 else if size == 2 then 2 else 1
  }

  function RowPatch(r: Row): Patch {
    Patch(Number(r.addr), Bytes(r.size), r.mask, r.value)
  }

  function RowPatches(rows: seq<Row>): seq<Patch> {
    seq(|rows|, k requires 0 <= k < |rows| => RowPatch(rows[k]))
  }

  /** No row's target overlaps the table. */
  ghost predicate ClearOfTable(table: int, rows: seq<Row>) {
    forall k :: 0 <= k < |rows| ==>
      Number(rows[k].addr) + 4 <= table || table + 32 * |rows| <= Number(rows[k].addr)
  }

  /** A 32-bit register keeps the low half. */
  function Half(v: bv64): bv64 {
    v & 0xffff_ffff
  }

  lemma HalfBytes(v: bv64, k: nat)
    requires k < 4
    ensures ByteAt(Half(v), k) == ByteAt(v, k)
  {
    if k == 0 {} else if k == 1 {} else if k == 2 {} else {}
  }

  lemma WriteHalf(m: Mem, a: int, w: nat, v: bv64)
    requires w <= 4
    ensures Write(m, a, w, Half(v)) == Write(m, a, w, v)
  {
    hide ByteAt, Half;
    forall x: int ensures Write(m, a, w, Half(v))[x] == Write(m, a, w, v)[x] {
      if a <= x < a + w { HalfBytes(v, x - a); }
    }
    SameBytes(Write(m, a, w, Half(v)), Write(m, a, w, v));
  }

  lemma TableUntouched(m: Mem, m': Mem, table: int, rows: seq<Row>)
    requires TableAt(m, table, rows)
    requires forall x :: table <= x < table + 32 * |rows| ==> m'[x] == m[x]
    ensures TableAt(m', table, rows)
  {
    forall i, f | 0 <= i < |rows| && 0 <= f < 4 ensures FieldAt(m', table, rows, i, f) {
      assert FieldAt(m, table, rows, i, f);
      SameRead(m, m', table + 32 * i + 8 * f);
    }
  }

  lemma SameRead(m: Mem, m': Mem, a: int)
    requires forall x :: a <= x < a + 8 ==> m'[x] == m[x]
    ensures Mmio.Read(m', a, 8) == Mmio.Read(m, a, 8)
  {
  }

  class Cpu {
    var mem: Mem

    constructor (mem: Mem)
      ensures this.mem == mem
    {
      this.mem := mem;
    }

    /** Load, clear, set, store in a 32-bit register, `w` bytes wide. */
    method MaskTarget(a: int, w: nat, clr: bv64, set_: bv64)
      requires w == 4 || w == 2 || w == 1
      modifies this
      ensures mem == Apply(old(mem), Patch(a, w, clr, set_))
    {
      hide Mmio.Read, Write, Masked;
      var w9 := Mmio.Read(mem, a, w);
      w9 := Half(Masked(w9, clr, set_));
      WriteHalf(mem, a, w, Masked(Mmio.Read(mem, a, w), clr, set_));
      mem := Write(mem, a, w, w9);
    }

    /** The apply loop: table pointer in x0, remaining rows in x1, rows done in x10. */
    method Run(table: int, count: nat, ghost rows: seq<Row>) returns (ret: bv64, done: nat)
      requires |rows| == count && TableAt(mem, table, rows) && ClearOfTable(table, rows)
      modifies this
      ensures done <= count && mem == ApplyAll(old(mem), RowPatches(rows[..done]))
      ensures forall k :: 0 <= k < done ==> OkSize(rows[k].size)
      ensures ret == (if done == count then APPLIED | Word(count) else BAD_SIZE)
      ensures done < count ==> !OkSize(rows[done].size)
    {
      hide Apply, Word, Succ, RowPatches, TableAt, ClearOfTable, Mmio.Read;
      var x0, x1, x10 := table, count, Word(0);
      ZeroWord();
      NoRows(old(mem), rows);
      done := 0;
      while x1 != 0
        invariant x1 == count - done && x0 == table + 32 * done && x10 == Word(done)
        invariant mem == ApplyAll(old(mem), RowPatches(rows[..done]))
        invariant TableAt(mem, table, rows)
        invariant forall k :: 0 <= k < done ==> OkSize(rows[k].size)
        decreases x1
      {
        RowFields(mem, table, rows, done);
        var x5, x6 := Mmio.Read(mem, x0, 8), Mmio.Read(mem, x0 + 8, 8);
        var x7, x8 := Mmio.Read(mem, x0 + 16, 8), Mmio.Read(mem, x0 + 24, 8);
        x0 := x0 + 32;
        RowStep(old(mem), mem, table, rows, done);
        if x8 == 4 {
          MaskTarget(Number(x5), 4, x6, x7);
        } else if x8 == 2 {
          MaskTarget(Number(x5), 2, x6, x7);
        } else if x8 == 1 {
          MaskTarget(Number(x5), 1, x6, x7);
        } else {
          return BAD_SIZE, done;
        }
        WordNext(done);
        x10 := Succ(x10);
        x1 := x1 - 1;
        done := done + 1;
      }
      ret := APPLIED | x10;
    }

    /** The host's side: pack the rows into the table, run the loop. Outside the table the memory is then the
        one the per-entry appliers leave, and the return value reports success and the number of entries. */
    method PackAndRun(table: int, rows: seq<Row>, ghost base: int, ghost sel: seq<Entry>) returns (ret: bv64)
      requires Packs(rows, base, sel) && ClearOfTable(table, rows)
      modifies this
      ensures forall x :: !(table <= x < table + 32 * |rows|) ==> mem[x] == ApplyAll(old(mem), Patches(base, sel))[x]
      ensures |sel| < 65536 ==> Hi(ret) == 0xC0DE && Lo(ret) == Word(|sel|)
    {
      hide ApplyAll, Word, Hi, Lo, RowPatches, Patches, OkSize, Packs, TableAt, ClearOfTable, Pack, LayOut, Sized;
      PackedTableReadsBack(mem, table, rows);
      mem := LayOut(mem, table, Pack(rows));
      ghost var loaded := mem;
      PackedLength(rows);
      var done;
      ret, done := Run(table, |rows|, rows);
      StubAgrees(loaded, mem, rows, base, sel, done);
      if |rows| < 65536 { CountDecodes(|rows|); }
      PatchesSized(rows, base, sel);
      SameOutside(loaded, old(mem), Patches(base, sel), table, 32 * |rows|);
    }

    /** One property: the entries that are reachable are packed and run, unless there is none at all or one of them has
        a size the loop does not know. */
    method StubApply(table: int, base: int, ports: seq<bool>, entries: seq<Entry>) returns (ok: bool, applied: nat)
      requires InRegisters(base, Selected(ports, entries)) && TableApart(table, base, Selected(ports, entries))
      modifies this
      ensures !SizesOk(Selected(ports, entries)) ==> !ok && mem == old(mem)
      ensures SizesOk(Selected(ports, entries)) ==>
        var sel := Selected(ports, entries);
        && (forall x :: !(table <= x < table + 32 * |sel|) ==> mem[x] == ApplyAll(old(mem), Patches(base, sel))[x])
        && (|sel| < 65536 ==> ok && applied == |sel|)
    {
      hide ApplyAll, Word, Number, Hi, Lo, Patches, Packs, ClearOfTable, InReach, Reachable, Classify, Selected;
      hide PackOf, SizesOk, TableApart;
      NothingSelected(ports, entries);
      var plan: seq<Entry> := [];
      for i := 0 to |entries|
        invariant plan == Selected(ports, entries[..i]) && mem == old(mem)
      {
        SelectedNext(ports, entries, i);
        ClassifyAgrees(ports, entries[i].offset);
        if Reachable(Classify(ports, entries[i].offset)) { plan := plan + [entries[i]]; }
      }
      assert entries[..|entries|] == entries;
      if !SizesOk(plan) { return false, 0; }
      PackOfPacks(base, plan);
      ApartIsClear(table, base, plan);
      PackOfLength(base, plan);
      var ret := PackAndRun(table, PackOf(base, plan), base, plan);
      ok, applied := Hi(ret) == 0xC0DE, Number(Lo(ret));
      if |plan| < 65536 { NumberOfWord(|plan|); }
    }
  }

  lemma PackOfLength(base: int, sel: seq<Entry>)
    requires InRegisters(base, sel)
    ensures |PackOf(base, sel)| == |sel|
  {
  }

  lemma PackedLength(rows: seq<Row>)
    ensures |Pack(rows)| == 32 * |rows|
  {
  }

  lemma PatchesSized(rows: seq<Row>, base: int, sel: seq<Entry>)
    requires Packs(rows, base, sel)
    ensures Sized(Patches(base, sel))
  {
    forall k | 0 <= k < |sel| ensures sel[k].size <= 8 { assert PacksRow(rows[k], base, sel[k]); }
  }

  /** What a list of patches makes of a byte depends on that byte only. */
  lemma {:induction false} ApplyAllLocal(m: Mem, m': Mem, ps: seq<Patch>, x: int)
    requires Sized(ps) && m[x] == m'[x]
    ensures ApplyAll(m, ps)[x] == ApplyAll(m', ps)[x]
  {
    hide Apply, ByteAt, MaskedByte;
    if ps != [] {
      var front, p := ps[..|ps| - 1], ps[|ps| - 1];
      ApplyAllLocal(m, m', front, x);
      ApplyByte(ApplyAll(m, front), p, x);
      ApplyByte(ApplyAll(m', front), p, x);
    }
  }

  lemma SameOutside(m: Mem, m': Mem, ps: seq<Patch>, table: int, length: nat)
    requires Sized(ps) && forall x: int :: !(table <= x < table + length) ==> m[x] == m'[x]
    ensures forall x: int :: !(table <= x < table + length) ==> ApplyAll(m, ps)[x] == ApplyAll(m', ps)[x]
  {
    hide ApplyAll, Sized;
    forall x: int | !(table <= x < table + length) ensures ApplyAll(m, ps)[x] == ApplyAll(m', ps)[x] {
      ApplyAllLocal(m, m', ps, x);
    }
  }

  lemma ZeroWord()
    ensures Word(0) == 0
  {
  }

  lemma NoRows(m: Mem, rows: seq<Row>)
    ensures m == ApplyAll(m, RowPatches(rows[..0]))
  {
  }

  lemma RowFields(m: Mem, table: int, rows: seq<Row>, i: nat)
    requires i < |rows| && TableAt(m, table, rows)
    ensures Mmio.Read(m, table + 32 * i, 8) == rows[i].addr && Mmio.Read(m, table + 32 * i + 8, 8) == rows[i].mask
    ensures Mmio.Read(m, table + 32 * i + 16, 8) == rows[i].value && Mmio.Read(m, table + 32 * i + 24, 8) == rows[i].size
  {
    hide Mmio.Read;
    assert FieldAt(m, table, rows, i, 0) && FieldAt(m, table, rows, i, 1);
    assert FieldAt(m, table, rows, i, 2) && FieldAt(m, table, rows, i, 3);
  }

  /** Applying one more row, for each of the sizes the loop knows. */
  lemma RowStep(m: Mem, m': Mem, table: int, rows: seq<Row>, i: nat)
    requires i < |rows| && TableAt(m', table, rows) && ClearOfTable(table, rows)
    requires m' == ApplyAll(m, RowPatches(rows[..i]))
    ensures var r := rows[i];
      var next := Apply(m', Patch(Number(r.addr), Bytes(r.size), r.mask, r.value));
      TableAt(next, table, rows) && next == ApplyAll(m, RowPatches(rows[..i + 1]))
  {
    hide Apply, TableAt, Bytes;
    var r := rows[i];
    var next := Apply(m', RowPatch(r));
    assert RowPatches(rows[..i + 1])[..i] == RowPatches(rows[..i]);
    AtMostFour(r.size);
    forall x | table <= x < table + 32 * |rows| ensures next[x] == m'[x] {
      OutsideTarget(m', RowPatch(r), x);
    }
    TableUntouched(m', next, table, rows);
  }

  lemma AtMostFour(size: bv64)
    ensures Bytes(size) <= 4
  {
  }

  lemma OutsideTarget(m: Mem, p: Patch, x: int)
    requires !Covers(p, x)
    ensures Apply(m, p)[x] == m[x]
  {
    hide Mmio.Read, Masked;
  }

  // ------------------------------------------------------------------- agreement

  /** The rows the host packs for a list of entries of the sizes the loop knows. */
  ghost predicate Packs(rows: seq<Row>, base: int, entries: seq<Entry>) {
    |rows| == |entries| &&
    forall k :: 0 <= k < |rows| ==> PacksRow(rows[k], base, entries[k])
  }

  ghost predicate PacksRow(r: Row, base: int, e: Entry) {
    && Number(r.addr) == base + e.offset && r.mask == e.mask && r.value == e.value
    && OkSize(r.size) && Bytes(r.size) == e.size
  }

  function SizeWord(size: nat): bv64 {
    if size == 1 then 1 else if size == 2 then 2 else 4
  }

  /** The packed list. */
  function PackOf(base: int, sel: seq<Entry>): seq<Row>
    requires InRegisters(base, sel)
  {
    seq(|sel|, k requires 0 <= k < |sel| =>
      Row(Word(base + sel[k].offset), sel[k].mask, sel[k].value, SizeWord(sel[k].size)))
  }

  /** Every target address fits a register. */
  predicate InRegisters(base: int, sel: seq<Entry>) {
    forall k :: 0 <= k < |sel| ==> 0 <= base + sel[k].offset < 0x1_0000_0000_0000_0000
  }

  /** All sizes are 1, 2 or 4. */
  predicate SizesOk(sel: seq<Entry>) {
    forall k :: 0 <= k < |sel| ==> sel[k].size == 1 || sel[k].size == 2 || sel[k].size == 4
  }

  /** Every list of these sizes has a packing. */
  lemma PackOfPacks(base: int, sel: seq<Entry>)
    requires InRegisters(base, sel) && SizesOk(sel)
    ensures Packs(PackOf(base, sel), base, sel)
  {
    hide Word, Number;
    forall k | 0 <= k < |sel| ensures PacksRow(PackOf(base, sel)[k], base, sel[k]) {
      NumberOfWord(base + sel[k].offset);
    }
  }

  /** The table is where no selected entry is applied. */
  predicate TableApart(table: int, base: int, sel: seq<Entry>) {
    forall k :: 0 <= k < |sel| ==>
      base + sel[k].offset + 4 <= table || table + 32 * |sel| <= base + sel[k].offset
  }

  lemma ApartIsClear(table: int, base: int, sel: seq<Entry>)
    requires InRegisters(base, sel) && TableApart(table, base, sel)
    ensures ClearOfTable(table, PackOf(base, sel))
  {
    hide Word, Number;
    forall k | 0 <= k < |sel| ensures Number(PackOf(base, sel)[k].addr) == base + sel[k].offset {
      NumberOfWord(base + sel[k].offset);
    }
  }

  /** A table packed from the selected entries runs to the end, and leaves the memory the per-entry appliers leave. */
  lemma StubAgrees(m: Mem, m': Mem, rows: seq<Row>, base: int, sel: seq<Entry>, done: nat)
    requires Packs(rows, base, sel)
    requires done <= |rows| && m' == ApplyAll(m, RowPatches(rows[..done]))
    requires done < |rows| ==> !OkSize(rows[done].size)
    ensures done == |rows| == |sel| && m' == ApplyAll(m, Patches(base, sel))
  {
    hide *;
    SizesPacked(rows, base, sel);
    SamePatches(rows, base, sel);
    assert done == |rows| && rows[..done] == rows;
  }

  lemma SizesPacked(rows: seq<Row>, base: int, sel: seq<Entry>)
    requires Packs(rows, base, sel)
    ensures forall k :: 0 <= k < |rows| ==> OkSize(rows[k].size)
  {
    forall k | 0 <= k < |rows| ensures OkSize(rows[k].size) { assert PacksRow(rows[k], base, sel[k]); }
  }

  lemma SamePatches(rows: seq<Row>, base: int, sel: seq<Entry>)
    requires Packs(rows, base, sel)
    ensures RowPatches(rows) == Patches(base, sel) && |rows| == |sel|
  {
    hide Bytes, OkSize;
    forall k | 0 <= k < |rows| ensures RowPatches(rows)[k] == Patches(base, sel)[k] {
      assert PacksRow(rows[k], base, sel[k]);
    }
  }

  /** A table packed from selected entries that are harmless there leaves every byte of an inactive slice, and every byte
      outside the window, as it was. */
  lemma StubStaysOut(m: Mem, m': Mem, table: int, rows: seq<Row>, base: int, ports: seq<bool>, entries: seq<Entry>, x: int)
    requires var sel := Selected(ports, entries);
      forall y :: !(table <= y < table + 32 * |rows|) ==> m'[y] == ApplyAll(m, Patches(base, sel))[y]
    requires forall e :: e in Selected(ports, entries) ==> Width(e.size) && TunableLaws.Harmless(ports, e)
    requires !InReach(ports, x) && !(table <= base + x < table + 32 * |rows|)
    ensures m'[base + x] == m[base + x]
  {
    hide Selected, ApplyAll, Classify, InReach, Patches, Width, TunableLaws.Harmless;
    var sel := Selected(ports, entries);
    forall k | 0 <= k < |sel| ensures Width(sel[k].size) && TunableLaws.Harmless(ports, sel[k]) { assert sel[k] in sel; }
    TunableLaws.HarmlessKeeps(m, base, ports, sel, x);
  }
}
