/** Plain byte-addressed memory, little-endian accesses of 1, 2, 4 or 8 bytes, and the one
    update every writer in the system performs: clear some bits, then set some bits. */
module Mmio {
  datatype Option<+T> = None | Some(value: T) {
    function GetOr(default: T): T {
      if Some? then value else default
    }
  }

  ghost predicate Total(m: imap<int, bv8>) {
    forall a: int :: a in m
  }

  /** Every address holds a byte. */
  type Mem = m: imap<int, bv8> | Total(m)
    ghost witness imap a: int :: 0

  /** The sizes the proxy has an access for. */
  predicate Width(w: nat) {
    w == 1 || w == 2 || w == 4 || w == 8
  }

  function ByteAt(v: bv64, k: nat): bv8 {
    if k == 0 then (v & 0xff) as bv8
    else if k == 1 then ((v >> 8) & 0xff) as bv8
    else if k == 2 then ((v >> 16) & 0xff) as bv8
    else if k == 3 then ((v >> 24) & 0xff) as bv8
    else if k == 4 then ((v >> 32) & 0xff) as bv8
    else if k == 5 then ((v >> 40) & 0xff) as bv8
    else if k == 6 then ((v >> 48) & 0xff) as bv8
    else if k == 7 then ((v >> 56) & 0xff) as bv8
    else 0
  }

  function FromBytes(b0: bv8, b1: bv8, b2: bv8, b3: bv8, b4: bv8, b5: bv8, b6: bv8, b7: bv8): bv64 {
    (b0 as bv64) | ((b1 as bv64) << 8) | ((b2 as bv64) << 16) | ((b3 as bv64) << 24) |
    ((b4 as bv64) << 32) | ((b5 as bv64) << 40) | ((b6 as bv64) << 48) | ((b7 as bv64) << 56)
  }

  function Lane(m: Mem, a: int, w: nat, k: nat): bv8 {
    if k < w then m[a + k] else 0
  }

  function Read(m: Mem, a: int, w: nat): bv64 {
    FromBytes(Lane(m, a, w, 0), Lane(m, a, w, 1), Lane(m, a, w, 2), Lane(m, a, w, 3),
              Lane(m, a, w, 4), Lane(m, a, w, 5), Lane(m, a, w, 6), Lane(m, a, w, 7))
  }

  /** Stores the low `w` bytes of `v`; higher bits are dropped, as the proxy's narrow stores do. */
  function Write(m: Mem, a: int, w: nat, v: bv64): (m': Mem)
    ensures forall x: int :: m'[x] == if a <= x < a + w then ByteAt(v, x - a) else m[x]
  {
    if w == 0 then m else Write(m, a, w - 1, v)[a + w - 1 := ByteAt(v, w - 1)]
  }

  lemma BytesOfRead(m: Mem, a: int, w: nat, k: nat)
    requires w <= 8
    ensures ByteAt(Read(m, a, w), k) == Lane(m, a, w, k)
  {
    if k == 0 {} else if k == 1 {} else if k == 2 {} else if k == 3 {}
    else if k == 4 {} else if k == 5 {} else if k == 6 {} else if k == 7 {}
  }

  lemma BytesDetermine(u: bv64, v: bv64)
    requires forall k: nat :: k < 8 ==> ByteAt(u, k) == ByteAt(v, k)
    ensures u == v
  {
    assert ByteAt(u, 0) == ByteAt(v, 0) && ByteAt(u, 1) == ByteAt(v, 1);
    assert ByteAt(u, 2) == ByteAt(v, 2) && ByteAt(u, 3) == ByteAt(v, 3);
    assert ByteAt(u, 4) == ByteAt(v, 4) && ByteAt(u, 5) == ByteAt(v, 5);
    assert ByteAt(u, 6) == ByteAt(v, 6) && ByteAt(u, 7) == ByteAt(v, 7);
  }

  /** The bits of `a` that `b` does not have. */
  function AndNot(a: bv64, b: bv64): bv64 {
    a & !b
  }

  function Or(a: bv64, b: bv64): bv64 {
    a | b
  }

  function Shr8(a: bv64): bv64 {
    a >> 8
  }

  /** `clr` and `set_` as the mask operations apply them. */
  function Masked(pre: bv64, clr: bv64, set_: bv64): bv64 {
    Or(AndNot(pre, clr), set_)
  }

  function MaskedByte(pre: bv8, clr: bv8, set_: bv8): bv8 {
    (pre & !clr) | set_
  }

  lemma ShiftByte(v: bv64, k: nat)
    requires 0 < k < 8
    ensures ByteAt(v, k) == ByteAt(Shr8(v), k - 1)
  {
    if k == 1 {} else if k == 2 {} else if k == 3 {} else if k == 4 {} else if k == 5 {} else if k == 6 {} else {}
  }

  lemma ShiftOr(a: bv64, b: bv64)
    ensures Shr8(Or(a, b)) == Or(Shr8(a), Shr8(b))
  {
  }

  lemma ShiftAndNot(a: bv64, b: bv64)
    ensures Shr8(AndNot(a, b)) == AndNot(Shr8(a), Shr8(b))
  {
  }

  lemma ShiftMasked(pre: bv64, clr: bv64, set_: bv64)
    ensures Shr8(Masked(pre, clr, set_)) == Masked(Shr8(pre), Shr8(clr), Shr8(set_))
  {
    hide Shr8, Or, AndNot;
    ShiftOr(AndNot(pre, clr), set_);
    ShiftAndNot(pre, clr);
  }

  lemma LowMasked(pre: bv64, clr: bv64, set_: bv64)
    ensures ByteAt(Masked(pre, clr, set_), 0) == MaskedByte(ByteAt(pre, 0), ByteAt(clr, 0), ByteAt(set_, 0))
  {
  }

  lemma {:induction false} MaskedBytes(pre: bv64, clr: bv64, set_: bv64, k: nat)
    requires k < 8
    ensures ByteAt(Masked(pre, clr, set_), k) == MaskedByte(ByteAt(pre, k), ByteAt(clr, k), ByteAt(set_, k))
    decreases k
  {
    if k == 0 {
      LowMasked(pre, clr, set_);
    } else {
      hide Shr8, ByteAt, Masked, MaskedByte;
      MaskedBytes(Shr8(pre), Shr8(clr), Shr8(set_), k - 1);
      ShiftMasked(pre, clr, set_);
      ShiftByte(pre, k);
      ShiftByte(clr, k);
      ShiftByte(set_, k);
      ShiftByte(Masked(pre, clr, set_), k);
    }
  }

  // ------------------------------------------------- the same, a byte at a time

  function AndNot8(a: bv8, b: bv8): bv8 {
    MaskedByte(a, b, 0)
  }

  function Or8(a: bv8, b: bv8): bv8 {
    MaskedByte(a, 0, b)
  }

  lemma ZeroByte(k: nat)
    ensures ByteAt(0, k) == 0
  {
  }

  lemma OrZero(a: bv64)
    ensures Or(a, 0) == a && AndNot(a, 0) == a
  {
  }

  lemma OrCommutes(a: bv64, b: bv64)
    ensures Or(a, b) == Or(b, a)
  {
  }

  lemma AndNotByte(a: bv64, b: bv64, k: nat)
    requires k < 8
    ensures ByteAt(AndNot(a, b), k) == AndNot8(ByteAt(a, k), ByteAt(b, k))
  {
    hide ByteAt, Or, AndNot;
    MaskedBytes(a, b, 0, k);
    OrZero(AndNot(a, b));
    ZeroByte(k);
  }

  lemma OrByte(a: bv64, b: bv64, k: nat)
    requires k < 8
    ensures ByteAt(Or(a, b), k) == Or8(ByteAt(a, k), ByteAt(b, k))
  {
    hide ByteAt, Or, AndNot;
    MaskedBytes(a, 0, b, k);
    OrZero(a);
    ZeroByte(k);
  }

  lemma NothingGained(b: bv8)
    ensures AndNot8(b, b) == 0 == AndNot8(0, b)
  {
  }

  lemma GainByte(r: bv8, w: bv8)
    ensures MaskedByte(w, r, r) == MaskedByte(w, 0, r)
  {
  }

  lemma GainBits(r: bv64, w: bv64)
    ensures Or(r, AndNot(w, r)) == Or(r, w)
  {
    hide ByteAt, MaskedByte, Or, AndNot;
    forall k: nat | k < 8 ensures ByteAt(Masked(w, r, r), k) == ByteAt(Masked(w, 0, r), k) {
      MaskedBytes(w, r, r, k);
      MaskedBytes(w, 0, r, k);
      ZeroByte(k);
      GainByte(ByteAt(r, k), ByteAt(w, k));
    }
    BytesDetermine(Masked(w, r, r), Masked(w, 0, r));
    OrZero(w);
    OrCommutes(r, AndNot(w, r));
    OrCommutes(w, r);
  }

  lemma DropBits(r: bv64, w: bv64)
    ensures AndNot(Or(r, w), AndNot(r, w)) == w
  {
  }

  // ------------------------------------------------------------------ bits

  predicate OneHot(bit: bv8) {
    bit == 0x01 || bit == 0x02 || bit == 0x04 || bit == 0x08 ||
    bit == 0x10 || bit == 0x20 || bit == 0x40 || bit == 0x80
  }

  function BitMask(k: nat): (bit: bv8)
    ensures k < 8 ==> OneHot(bit)
  {
    if k == 0 then 0x01 else if k == 1 then 0x02 else if k == 2 then 0x04 else if k == 3 then 0x08
    else if k == 4 then 0x10 else if k == 5 then 0x20 else if k == 6 then 0x40 else if k == 7 then 0x80 else 0
  }

  predicate Has(b: bv8, bit: bv8) {
    b & bit != 0
  }

  predicate Bit(b: bv8, k: nat) {
    Has(b, BitMask(k))
  }

  lemma BitsDetermine(a: bv8, b: bv8)
    requires forall k: nat :: k < 8 ==> Bit(a, k) == Bit(b, k)
    ensures a == b
  {
    assert Bit(a, 0) == Bit(b, 0) && Bit(a, 1) == Bit(b, 1) && Bit(a, 2) == Bit(b, 2) && Bit(a, 3) == Bit(b, 3);
    assert Bit(a, 4) == Bit(b, 4) && Bit(a, 5) == Bit(b, 5) && Bit(a, 6) == Bit(b, 6) && Bit(a, 7) == Bit(b, 7);
  }

  // --------------------------------------------------------------- patches

  /** One read-modify-write: clear `clr`, then set `set_`, over `width` bytes at `addr`. */
  datatype Patch = Patch(addr: int, width: nat, clr: bv64, set_: bv64)

  predicate Covers(p: Patch, x: int) {
    p.addr <= x < p.addr + p.width
  }

  function Apply(m: Mem, p: Patch): Mem {
    Write(m, p.addr, p.width, Masked(Read(m, p.addr, p.width), p.clr, p.set_))
  }

  function ApplyAll(m: Mem, ps: seq<Patch>): Mem {
    if ps == [] then m else Apply(ApplyAll(m, ps[..|ps| - 1]), ps[|ps| - 1])
  }

  ghost predicate Sized(ps: seq<Patch>) {
    forall i :: 0 <= i < |ps| ==> ps[i].width <= 8
  }

  /** What one patch makes of bit `k` of byte `x`, without looking at the memory. */
  function Touch(p: Patch, x: int, k: nat): Option<bool> {
    if !Covers(p, x) then None
    else if Bit(ByteAt(p.set_, x - p.addr), k) then Some(true)
    else if Bit(ByteAt(p.clr, x - p.addr), k) then Some(false)
    else None
  }

  /** The verdict of the last patch that touches the bit, if any does. */
  function LastTouch(ps: seq<Patch>, x: int, k: nat): Option<bool> {
    if ps == [] then None
    else if Touch(ps[|ps| - 1], x, k).Some? then Touch(ps[|ps| - 1], x, k)
    else LastTouch(ps[..|ps| - 1], x, k)
  }

  lemma ApplyByte(m: Mem, p: Patch, x: int)
    requires p.width <= 8
    ensures Apply(m, p)[x] ==
      if Covers(p, x) then MaskedByte(m[x], ByteAt(p.clr, x - p.addr), ByteAt(p.set_, x - p.addr)) else m[x]
  {
    hide Read, ByteAt, Masked, MaskedByte;
    if Covers(p, x) {
      BytesOfRead(m, p.addr, p.width, x - p.addr);
      MaskedBytes(Read(m, p.addr, p.width), p.clr, p.set_, x - p.addr);
    }
  }

  lemma OneBit(pre: bv8, clr: bv8, set_: bv8, bit: bv8)
    requires OneHot(bit)
    ensures Has(MaskedByte(pre, clr, set_), bit) == (Has(set_, bit) || (!Has(clr, bit) && Has(pre, bit)))
  {
  }

  lemma MaskedBit(pre: bv8, clr: bv8, set_: bv8, k: nat)
    requires k < 8
    ensures Bit(MaskedByte(pre, clr, set_), k) == (Bit(set_, k) || (!Bit(clr, k) && Bit(pre, k)))
  {
    hide BitMask, OneHot, Has, MaskedByte;
    OneBit(pre, clr, set_, BitMask(k));
  }

  lemma {:induction false} LastTouchDecides(m: Mem, ps: seq<Patch>, x: int, k: nat)
    requires Sized(ps) && k < 8
    ensures Bit(ApplyAll(m, ps)[x], k) == LastTouch(ps, x, k).GetOr(Bit(m[x], k))
  {
    hide Apply, ByteAt, Bit, MaskedByte;
    if ps != [] {
      var p, before := ps[|ps| - 1], ApplyAll(m, ps[..|ps| - 1]);
      LastTouchDecides(m, ps[..|ps| - 1], x, k);
      ApplyByte(before, p, x);
      if Covers(p, x) {
        MaskedBit(before[x], ByteAt(p.clr, x - p.addr), ByteAt(p.set_, x - p.addr), k);
      }
    }
  }

  lemma SameBytes(m: Mem, m': Mem)
    requires forall x: int :: m[x] == m'[x]
    ensures m == m'
  {
    assert forall x: int :: x in m && x in m' && m[x] == m'[x];
  }

  /** Two memories are equal when every bit of every byte is. */
  lemma MemoryEqual(m: Mem, m': Mem)
    requires forall x: int, k: nat :: k < 8 ==> Bit(m[x], k) == Bit(m'[x], k)
    ensures m == m'
  {
    forall x: int ensures m[x] == m'[x] {
      BitsDetermine(m[x], m'[x]);
    }
    SameBytes(m, m');
  }

  lemma {:induction false} TouchOfPrefix(ps: seq<Patch>, n: nat, x: int, k: nat)
    requires n <= |ps| && LastTouch(ps, x, k).None?
    ensures LastTouch(ps[..n], x, k).None?
  {
    hide Touch;
    if n == |ps| {
      assert ps[..n] == ps;
    } else {
      TouchOfPrefix(ps[..|ps| - 1], n, x, k);
      assert ps[..|ps| - 1][..n] == ps[..n];
    }
  }

  /** A whole pass forgets that a part of it was made before. */
  lemma PassAfterPart(m: Mem, ps: seq<Patch>, n: nat)
    requires Sized(ps) && n <= |ps|
    ensures ApplyAll(ApplyAll(m, ps[..n]), ps) == ApplyAll(m, ps)
  {
    var part := ApplyAll(m, ps[..n]);
    assert Sized(ps[..n]);
    hide ApplyAll, LastTouch, Bit, Sized;
    forall x: int, k: nat | k < 8 ensures Bit(ApplyAll(part, ps)[x], k) == Bit(ApplyAll(m, ps)[x], k) {
      LastTouchDecides(part, ps, x, k);
      LastTouchDecides(m, ps, x, k);
      LastTouchDecides(m, ps[..n], x, k);
      if LastTouch(ps, x, k).None? { TouchOfPrefix(ps, n, x, k); }
    }
    MemoryEqual(ApplyAll(part, ps), ApplyAll(m, ps));
  }

  lemma {:induction false} ApplyAllConcat(m: Mem, ps: seq<Patch>, qs: seq<Patch>)
    ensures ApplyAll(m, ps + qs) == ApplyAll(ApplyAll(m, ps), qs)
  {
    hide Apply;
    if qs == [] {
      assert ps + qs == ps;
    } else {
      ApplyAllConcat(m, ps, qs[..|qs| - 1]);
      assert (ps + qs)[..|ps + qs| - 1] == ps + qs[..|qs| - 1];
    }
  }

  /** Storing what was read changes nothing. */
  lemma WriteBack(m: Mem, a: int, w: nat, v: bv64)
    requires w <= 8 && v == Read(m, a, w)
    ensures Write(m, a, w, v) == m
  {
    hide Read, ByteAt;
    forall x: int ensures Write(m, a, w, v)[x] == m[x] {
      if a <= x < a + w {
        BytesOfRead(m, a, w, x - a);
      }
    }
    SameBytes(Write(m, a, w, v), m);
  }
}
