/** The C payload's logger: text goes into a caller's buffer in place, and is silently cut when the buffer is full. */
module BoundedLog {

  // ------------------------------------------------------------------- numerals

  function Pow(b: nat, n: nat): (r: nat)
    ensures b > 0 ==> r > 0
  {
    if n == 0 then 1 else Pow(b, n - 1) * b
  }

  /** The character of a digit, in base 16 or less. */
  function Digit(d: nat): char
    requires d < 16
  {
    "0123456789abcdef"[d]
  }

  /** n digits in the given base, most significant first. */
  function Digits(b: nat, v: nat, n: nat): (s: string)
    requires 2 <= b <= 16
    ensures |s| == n
    decreases n
  {
    if n == 0 then "" else Digits(b, v / b, n - 1) + [Digit(v % b)]
  }

  /** The decimal numeral without needless digits. */
  function Decimal(v: nat): (s: string)
    ensures s != ""
  {
    if v < 10 then [Digit(v)] else Decimal(v / 10) + [Digit(v % 10)]
  }

  datatype Numeral = NotANumeral | Value(v: nat)

  /** The value of a digit character, or the base itself for any other character. */
  function DigitValue(b: nat, c: char): (d: nat)
    requires 2 <= b <= 16
    ensures d <= b
  {
    if '0' <= c <= '9' && (c as int - '0' as int) < b then c as int - '0' as int
    else if 'a' <= c <= 'f' && c as int - 'a' as int + 10 < b then c as int - 'a' as int + 10
    else b
  }

  /** The number a digit string denotes. */
  function Parse(b: nat, s: string): Numeral
    requires 2 <= b <= 16
  {
    if s == "" then Value(0)
    else
      var front, d := Parse(b, s[..|s| - 1]), DigitValue(b, s[|s| - 1]);
      if front.NotANumeral? || d == b then NotANumeral else Value(front.v * b + d)
  }

  /** A decimal numeral as people write it: digits only, at least one, and no leading zero but in "0". */
  predicate Canonical(s: string) {
    s != "" && Parse(10, s).Value? && (s[0] == '0' ==> |s| == 1)
  }

  lemma DigitParses(b: nat, d: nat)
    requires 2 <= b <= 16 && d < b
    ensures DigitValue(b, Digit(d)) == d
  {
  }

  lemma DivMod(b: nat, v: nat)
    requires b > 0
    ensures v % b < b && v / b * b + v % b == v
  {
  }

  lemma OneMoreDigit(b: nat, q: nat, d: nat, s: string)
    requires 2 <= b <= 16 && d < b && Parse(b, s) == Value(q)
    ensures Parse(b, s + [Digit(d)]) == Value(q * b + d)
  {
    hide Digit, DigitValue;
    DigitParses(b, d);
    assert (s + [Digit(d)])[..|s|] == s;
  }

  lemma PowStep(b: nat, n: nat)
    ensures Pow(b, n + 1) == Pow(b, n) * b
  {
  }

  lemma NoDigitsParse(b: nat, v: nat)
    requires 2 <= b <= 16
    ensures Parse(b, Digits(b, v, 0)) == Value(0) && Pow(b, 0) == 1
  {
  }

  lemma LastOfDigits(b: nat, v: nat, n: nat)
    requires 2 <= b <= 16
    ensures Digits(b, v, n + 1) == Digits(b, v / b, n) + [Digit(v % b)]
  {
  }

  lemma DigitsStep(b: nat, v: nat, n: nat)
    requires 2 <= b <= 16 && Parse(b, Digits(b, v / b, n)) == Value(v / b)
    ensures Parse(b, Digits(b, v, n + 1)) == Value(v)
  {
    hide Digit, Digits, Parse;
    LastOfDigits(b, v, n);
    DivMod(b, v);
    OneMoreDigit(b, v / b, v % b, Digits(b, v / b, n));
  }

  lemma QuotientFitsPow(b: nat, v: nat, n: nat)
    requires b > 0 && v < Pow(b, n + 1)
    ensures v / b < Pow(b, n)
  {
    hide Pow;
    PowStep(b, n);
    QuotientFits(b, v, Pow(b, n));
  }

  /** Fixed-width numerals read back, for every value that fits. */
  lemma {:induction false} DigitsRoundTrip(b: nat, v: nat, n: nat)
    requires 2 <= b <= 16 && v < Pow(b, n)
    ensures Parse(b, Digits(b, v, n)) == Value(v)
    decreases n
  {
    hide Pow, Digit, Digits, Parse;
    if n == 0 {
      NoDigitsParse(b, v);
    } else {
      QuotientFitsPow(b, v, n - 1);
      DigitsRoundTrip(b, v / b, n - 1);
      DigitsStep(b, v, n - 1);
    }
  }

  lemma QuotientFits(b: nat, v: nat, p: nat)
    requires b > 0 && v < p * b
    ensures v / b < p
  {
    if v / b >= p { Grows(p, v / b, b); }
  }

  lemma Grows(x: nat, y: nat, b: nat)
    requires x <= y
    ensures x * b <= y * b
  {
  }

  lemma {:induction false} DecimalRoundTrip(v: nat)
    ensures Parse(10, Decimal(v)) == Value(v)
  {
    hide Digit, DigitValue;
    DigitParses(10, v % 10);
    var s := Decimal(v);
    if v < 10 {
      assert s[..0] == "";
    } else {
      DecimalRoundTrip(v / 10);
      assert s[..|s| - 1] == Decimal(v / 10);
    }
  }

  lemma {:induction false} DecimalLeads(v: nat)
    ensures (Decimal(v)[0] == '0') <==> v == 0
  {
    if v >= 10 { DecimalLeads(v / 10); }
  }

  lemma DecimalIsCanonical(v: nat)
    ensures Canonical(Decimal(v))
  {
    hide Digit, DigitValue, Parse;
    DecimalRoundTrip(v);
    DecimalLeads(v);
    if v == 0 { assert |Decimal(0)| == 1; }
  }

  lemma DigitIsUnique(c: char)
    requires DigitValue(10, c) < 10
    ensures c == Digit(DigitValue(10, c)) && (c == '0' <==> DigitValue(10, c) == 0)
  {
  }

  /** A canonical numeral that denotes v is the one the logger emits. */
  lemma {:induction false} CanonicalIsUnique(s: string)
    requires Canonical(s)
    ensures s == Decimal(Parse(10, s).v)
    ensures s[0] != '0' ==> Parse(10, s).v > 0
  {
    hide Digit, DigitValue;
    var front, last := s[..|s| - 1], s[|s| - 1];
    var d := DigitValue(10, last);
    DigitIsUnique(last);
    assert s == front + [last];
    if front == "" {
      assert Parse(10, s).v == d;
    } else {
      CanonicalIsUnique(front);
      var q := Parse(10, front).v;
      assert Parse(10, s).v == q * 10 + d && (q * 10 + d) / 10 == q && (q * 10 + d) % 10 == d;
    }
  }

  /** Every 64-bit value has at most twenty decimal digits. */
  lemma {:induction false} PowersOfTen(i: nat)
    requires Pow(10, i) < 0x1_0000_0000_0000_0000
    ensures i < 20
  {
    if i >= 20 {
      PowMonotone(10, 20, i);
      PowTwenty();
    }
  }

  lemma {:induction false} PowMonotone(b: nat, m: nat, n: nat)
    requires b > 0 && m <= n
    ensures Pow(b, m) <= Pow(b, n)
  {
    if m < n {
      PowMonotone(b, m, n - 1);
      assert Pow(b, n) == Pow(b, n - 1) * b;
    }
  }

  lemma PowTwenty()
    ensures Pow(10, 20) == 100_000_000_000_000_000_000
  {
    assert Pow(10, 4) == 10_000;
    assert Pow(10, 8) == 100_000_000;
    assert Pow(10, 12) == 1_000_000_000_000;
    assert Pow(10, 16) == 10_000_000_000_000_000;
  }

  // ---------------------------------------------------------------- what a call says

  datatype Call =
    | Putc(c: char)
    | Puts(s: string)
    | Puthex8(v8: nat)
    | Puthex32(v32: nat)
    | Puthex64(v64: nat)
    | Putdec(v: nat)

  const NUL := '\0'

  /** Arguments as their C types allow them: terminated strings, and integers in range. */
  predicate WellTyped(call: Call) {
    match call
    case Putc(_) => true
    case Puts(s) => NUL in s
    case Puthex8(v) => v < 0x100
    case Puthex32(v) => v < 0x1_0000_0000
    case Puthex64(v) => v < 0x1_0000_0000_0000_0000
    case Putdec(v) => v < 0x1_0000_0000_0000_0000
  }

  function UpToNul(s: string): string {
    if s == "" || s[0] == NUL then "" else [s[0]] + UpToNul(s[1..])
  }

  /** It is the text in front of the first NUL. */
  lemma {:induction false} UpToNulIs(s: string)
    ensures var n := |UpToNul(s)|;
      n <= |s| && UpToNul(s) == s[..n] && NUL !in s[..n] && (n < |s| ==> s[n] == NUL)
  {
    if s != "" && s[0] != NUL { UpToNulIs(s[1..]); }
  }

  function Says(call: Call): string {
    match call
    case Putc(c) => [c]
    case Puts(s) => UpToNul(s)
    case Puthex8(v) => Digits(16, v, 2)
    case Puthex32(v) => "0x" + Digits(16, v, 8)
    case Puthex64(v) => "0x" + Digits(16, v, 16)
    case Putdec(v) => Decimal(v)
  }

  function Output(calls: seq<Call>): string {
    if calls == [] then "" else Output(calls[..|calls| - 1]) + Says(calls[|calls| - 1])
  }

  // ------------------------------------------------------------- what the memory holds

  /** The part of the text that a buffer of that size keeps. */
  function Kept(text: string, size: nat): (s: string)
    requires size > 0
    ensures |s| < size && s <= text
  {
    if |text| <= size - 1 then text else text[..size - 1]
  }

  function Written(before: seq<char>, base: nat, kept: string): seq<char>
    requires base + |kept| < |before|
  {
    before[..base] + kept + [NUL] + before[base + |kept| + 1..]
  }

  /** The memory after the text was logged into [base, base + size), as against the memory before. */
  function Image(before: seq<char>, base: nat, size: nat, text: string): seq<char>
    requires base != 0 ==> base + size <= |before|
  {
    if base == 0 || size == 0 then before
    else Written(before, base, Kept(text, size))
  }

  lemma ImageLength(before: seq<char>, base: nat, size: nat, text: string)
    requires base != 0 ==> base + size <= |before|
    ensures |Image(before, base, size, text)| == |before|
  {
  }

  /** Nothing outside the buffer changes, and inside it the kept text is followed by NUL. */
  lemma ImageFrame(before: seq<char>, base: nat, size: nat, text: string)
    requires base != 0 ==> base + size <= |before|
    ensures var after := Image(before, base, size, text);
      && |after| == |before|
      && (forall k :: 0 <= k < |before| && !(base <= k < base + size) ==> after[k] == before[k])
      && (base != 0 && size > 0 ==>
           && |Kept(text, size)| == (if |text| < size then |text| else size - 1)
           && after[base..base + |Kept(text, size)|] == text[..|Kept(text, size)|]
           && after[base + |Kept(text, size)|] == NUL)
  {
  }

  // ------------------------------------------------------------- the printers' loops

  /** hex_nibble, on any number: the low four bits. */
  function HexNibble(n: nat): char {
    var d := n % 16;
    if d < 10 then ('0' as int + d) as char else ('a' as int + d - 10) as char
  }

  lemma NibbleIsDigit(n: nat)
    ensures HexNibble(n) == Digit(n % 16)
  {
  }

  function DecDigit(d: nat): char
    requires d < 10
  {
    ('0' as int + d) as char
  }

  lemma DecIsDigit(d: nat)
    requires d < 10
    ensures DecDigit(d) == Digit(d)
  {
  }

  /** What is left to print of a C string from position i on. */
  function Rest(s: string, i: nat): string
    requires i <= |s|
  {
    UpToNul(s[i..])
  }

  lemma RestStep(s: string, i: nat)
    requires i < |s|
    ensures Rest(s, i) == if s[i] == NUL then "" else [s[i]] + Rest(s, i + 1)
  {
    assert s[i..][1..] == s[i + 1..];
  }

  lemma Moved(front: string, c: char, rest: string)
    ensures front + ([c] + rest) == front + [c] + rest
  {
  }

  lemma RestOfAll(s: string)
    ensures Rest(s, 0) == UpToNul(s)
  {
    assert s[0..] == s;
  }

  /** v shifted right by i nibbles. */
  function Shr4(v: nat, i: nat): nat {
    v / Pow(16, i)
  }

  lemma NoDigits(v: nat, n: nat)
    ensures Digits(16, Shr4(v, n), 0) == ""
  {
  }

  lemma AllDigits(v: nat, n: nat)
    ensures Digits(16, Shr4(v, 0), n) == Digits(16, v, n)
  {
  }

  lemma DivDiv(v: nat, p: nat)
    requires p > 0
    ensures v / p / 16 == v / (p * 16)
  {
    var q, r := v / p / 16, v / p % 16;
    var rest := v % p;
    assert v / p == q * 16 + r;
    assert v == (q * 16 + r) * p + rest;
    var low := r * p + rest;
    Grows(r, 15, p);
    assert (q * 16 + r) * p == q * (p * 16) + r * p by { Distribute(q, r, p); }
    assert 0 <= low < p * 16;
    Quotient(q, p * 16, low);
  }

  lemma Distribute(q: nat, r: nat, p: nat)
    ensures (q * 16 + r) * p == q * (p * 16) + r * p
  {
  }

  lemma Quotient(q: nat, m: nat, low: nat)
    requires low < m
    ensures (q * m + low) / m == q
  {
    var v := q * m + low;
    var k := v / m;
    assert v == k * m + v % m;
    if k < q { Grows(k + 1, q, m); }
    if k > q { Grows(q + 1, k, m); }
  }

  lemma LowNibble(x: nat)
    ensures HexNibble(x % 0x100) == Digit(x % 16)
  {
    hide HexNibble, Digit;
    NibbleIsDigit(x % 0x100);
    assert x % 0x100 % 16 == x % 16;
  }

  lemma ShiftOnce(v: nat, i: nat)
    ensures Shr4(v, i) / 16 == Shr4(v, i + 1)
  {
    DivDiv(v, Pow(16, i));
  }

  lemma NextDigit(v: nat, i: nat, n: nat)
    ensures Digits(16, Shr4(v, i), n + 1) == Digits(16, Shr4(v, i + 1), n) + [HexNibble(Shr4(v, i) % 0x100)]
  {
    hide Shr4, HexNibble, Digit, Digits;
    ShiftOnce(v, i);
    LowNibble(Shr4(v, i));
    LastOfDigits(16, Shr4(v, i), n);
  }

  /** The digits still to be split off. */
  function Leading(w: nat): string {
    if w == 0 then "" else Decimal(w)
  }

  function Reversed(s: string): string {
    if s == "" then "" else [s[|s| - 1]] + Reversed(s[..|s| - 1])
  }

  lemma ReversedMore(s: string, c: char)
    ensures Reversed(s + [c]) == [c] + Reversed(s)
  {
    assert (s + [c])[..|s|] == s;
  }

  lemma SplitOff(w: nat)
    requires w > 0
    ensures Leading(w) == Leading(w / 10) + [DecDigit(w % 10)]
  {
    DecIsDigit(w % 10);
  }

  /** The digits taken so far leave room for one more. */
  lemma ScratchFits(w: nat, i: nat, v: nat)
    requires 0 < w && w * Pow(10, i) <= v < 0x1_0000_0000_0000_0000
    ensures i < 20 && w / 10 * Pow(10, i + 1) <= v
  {
    var p := Pow(10, i);
    Grows(1, w, p);
    PowersOfTen(i);
    Grows(w / 10 * 10, w, p);
    assert w / 10 * (p * 10) == w / 10 * 10 * p;
  }

  lemma WrittenStep(before: seq<char>, base: nat, kept: string, c: char)
    requires base + |kept| + 1 < |before|
    ensures var p := base + |kept|;
      Written(before, base, kept + [c]) == Written(before, base, kept)[p := c][p + 1 := NUL]
  {
  }

  lemma KeptStep(text: string, size: nat, c: char)
    requires size > 0
    ensures Kept(text + [c], size) == if |Kept(text, size)| + 1 < size then Kept(text, size) + [c] else Kept(text, size)
  {
  }

  /** One more character either goes in before the NUL, or is dropped because the buffer is full. */
  lemma ImageStep(before: seq<char>, base: nat, size: nat, text: string, c: char)
    requires base != 0 && size > 0 && base + size <= |before|
    ensures var p := base + |Kept(text, size)|;
      var was := Image(before, base, size, text);
      if p + 1 < base + size
      then |Kept(text + [c], size)| == |Kept(text, size)| + 1
           && Image(before, base, size, text + [c]) == was[p := c][p + 1 := NUL]
      else Kept(text + [c], size) == Kept(text, size)
           && Image(before, base, size, text + [c]) == was
  {
    hide Kept, Written;
    KeptStep(text, size, c);
    var p := base + |Kept(text, size)|;
    if p + 1 < base + size { WrittenStep(before, base, Kept(text, size), c); }
  }

  lemma NoBuffer(before: seq<char>, base: nat, size: nat, text: string, more: string)
    requires base != 0 ==> base + size <= |before|
    ensures base == 0 || size == 0 ==> Image(before, base, size, text) == Image(before, base, size, more)
  {
  }

  lemma {:induction false} UpToNulAppended(kept: string, rest: string)
    ensures UpToNul(kept + [NUL] + rest) == UpToNul(kept)
  {
    var whole := kept + [NUL] + rest;
    if kept != "" {
      assert whole[1..] == kept[1..] + [NUL] + rest;
      UpToNulAppended(kept[1..], rest);
    }
  }

  /** Whoever reads the buffer as a C string sees the kept text, up to a NUL that was itself logged. */
  lemma ReaderSees(before: seq<char>, base: nat, size: nat, text: string)
    requires base != 0 && size > 0 && base + size <= |before|
    ensures UpToNul(Image(before, base, size, text)[base..]) == UpToNul(Kept(text, size))
  {
    hide UpToNul;
    var kept := Kept(text, size);
    var rest := before[base + |kept| + 1..];
    assert Image(before, base, size, text)[base..] == kept + [NUL] + rest;
    UpToNulAppended(kept, rest);
  }

  lemma HexWidths()
    ensures Pow(16, 2) == 0x100 && Pow(16, 8) == 0x1_0000_0000 && Pow(16, 16) == 0x1_0000_0000_0000_0000
  {
    assert Pow(16, 4) == 0x1_0000;
    assert Pow(16, 8) == 0x1_0000_0000;
    assert Pow(16, 12) == 0x1_0000_0000_0000;
  }

  /** Every printed number reads back as the value given. */
  lemma NumbersReadBack(call: Call)
    requires WellTyped(call)
    ensures match call
      case Puthex8(v) => |Says(call)| == 2 && Parse(16, Says(call)) == Value(v)
      case Puthex32(v) => |Says(call)| == 10 && Says(call)[..2] == "0x" && Parse(16, Says(call)[2..]) == Value(v)
      case Puthex64(v) => |Says(call)| == 18 && Says(call)[..2] == "0x" && Parse(16, Says(call)[2..]) == Value(v)
      case Putdec(v) => Canonical(Says(call)) && Parse(10, Says(call)) == Value(v)
      case _ => true
  {
    hide Parse, Digits, Canonical, Decimal, Pow;
    HexWidths();
    match call
    case Puthex8(v) =>
      DigitsRoundTrip(16, v, 2);
    case Puthex32(v) =>
      DigitsRoundTrip(16, v, 8);
      assert Says(call)[2..] == Digits(16, v, 8);
    case Puthex64(v) =>
      DigitsRoundTrip(16, v, 16);
      assert Says(call)[2..] == Digits(16, v, 16);
    case Putdec(v) =>
      DecimalIsCanonical(v);
      DecimalRoundTrip(v);
    case _ =>
  }

  class Log {
    const ram: array<char>
    var logPtr: nat
    var logEnd: nat
    ghost var before: seq<char>
    ghost var base: nat
    ghost var size: nat
    ghost var text: string

    /** The memory is exactly the image of everything logged since the buffer was installed. */
    ghost predicate Valid()
      reads this, ram
    {
      && (base != 0 ==> base + size <= |before|)
      && ram[..] == Image(before, base, size, text)
      && logEnd == base + size
      && logPtr == base + (if base == 0 || size == 0 then 0 else |Kept(text, size)|)
    }

    /** log_init. The buffer is the caller's memory, unless the pointer is null. */
    constructor (ram: array<char>, buf: nat, size: nat)
      requires buf != 0 ==> buf + size <= ram.Length
      modifies ram
      ensures this.ram == ram && Valid()
      ensures before == old(ram[..]) && base == buf && this.size == size && text == ""
    {
      this.ram, logPtr, logEnd := ram, buf, buf + size;
      this.before, this.base, this.size, this.text := ram[..], buf, size, "";
      new;
      if buf != 0 && size > 0 {
        ram[buf] := NUL;
      }
    }

    method Putc(c: char)
      requires Valid()
      modifies this`logPtr, this`text, ram
      ensures Valid() && text == old(text) + [c]
    {
      hide Image, Kept;
      ImageLength(before, base, size, text);
      NoBuffer(before, base, size, text, text + [c]);
      if base != 0 && size > 0 { ImageStep(before, base, size, text, c); }
      text := text + [c];
      if logPtr == 0 || logPtr + 1 >= logEnd { return; }
      ram[logPtr] := c;
      logPtr := logPtr + 1;
      ram[logPtr] := NUL;
    }

    method Puts(s: string)
      requires Valid() && NUL in s
      modifies this`logPtr, this`text, ram
      ensures Valid() && text == old(text) + UpToNul(s)
    {
      hide *;
      var i := 0;
      ghost var end: nat :| end < |s| && s[end] == NUL;
      RestOfAll(s);
      while s[i] != NUL
        invariant i <= end && Valid()
        invariant text + Rest(s, i) == old(text) + UpToNul(s)
        decreases end - i
      {
        RestStep(s, i);
        Moved(text, s[i], Rest(s, i + 1));
        Putc(s[i]);
        i := i + 1;
      }
      RestStep(s, i);
    }

    method Puthex8(v: nat)
      requires Valid() && v < 0x100
      modifies this`logPtr, this`text, ram
      ensures Valid() && text == old(text) + Digits(16, v, 2)
    {
      hide Valid, HexNibble, Digit;
      Putc(HexNibble(v / 16));
      Putc(HexNibble(v));
      NibbleIsDigit(v / 16);
      NibbleIsDigit(v);
      assert Digits(16, v / 16 / 16, 0) == "";
      assert Digits(16, v / 16, 1) == [Digit(v / 16 % 16)];
    }

    method Puthex32(v: nat)
      requires Valid() && v < 0x1_0000_0000
      modifies this`logPtr, this`text, ram
      ensures Valid() && text == old(text) + ("0x" + Digits(16, v, 8))
    {
      hide *;
      Putc('0');
      Putc('x');
      NoDigits(v, 8);
      var i := 8;
      while i > 0
        invariant i <= 8 && Valid()
        invariant text == old(text) + ("0x" + Digits(16, Shr4(v, i), 8 - i))
      {
        i := i - 1;
        NextDigit(v, i, 7 - i);
        Putc(HexNibble(Shr4(v, i) % 0x100));
      }
      AllDigits(v, 8);
    }

    method Puthex64(v: nat)
      requires Valid() && v < 0x1_0000_0000_0000_0000
      modifies this`logPtr, this`text, ram
      ensures Valid() && text == old(text) + ("0x" + Digits(16, v, 16))
    {
      hide *;
      Putc('0');
      Putc('x');
      NoDigits(v, 16);
      var i := 16;
      while i > 0
        invariant i <= 16 && Valid()
        invariant text == old(text) + ("0x" + Digits(16, Shr4(v, i), 16 - i))
      {
        i := i - 1;
        NextDigit(v, i, 15 - i);
        Putc(HexNibble(Shr4(v, i) % 0x100));
      }
      AllDigits(v, 16);
    }

    /** log_putdec: the digits go backwards into a scratch of 21 characters, and out of it again. */
    method Putdec(v: nat)
      requires Valid() && v < 0x1_0000_0000_0000_0000
      modifies this`logPtr, this`text, ram
      ensures Valid() && text == old(text) + Decimal(v)
    {
      hide *;
      DecimalStart(v);
      if v == 0 {
        Putc('0');
        return;
      }
      var buf := new char[21];
      var i: nat, w: nat := 0, v;
      while w != 0
        invariant i < buf.Length && w * Pow(10, i) <= v
        invariant Valid() && text == old(text) && fresh(buf)
        invariant Decimal(v) == Leading(w) + Reversed(buf[..i])
        decreases w
      {
        ScratchFits(w, i, v);
        SplitOff(w);
        ReversedMore(buf[..i], DecDigit(w % 10));
        ghost var taken := buf[..i];
        buf[i] := DecDigit(w % 10);
        assert buf[..i + 1] == taken + [DecDigit(w % 10)];
        i, w := i + 1, w / 10;
      }
      assert "" + Reversed(buf[..i]) == Reversed(buf[..i]);
      while i > 0
        invariant i < buf.Length && Valid() && fresh(buf)
        invariant text + Reversed(buf[..i]) == old(text) + Decimal(v)
      {
        i := i - 1;
        ReversedMore(buf[..i], buf[i]);
        assert buf[..i + 1] == buf[..i] + [buf[i]];
        Putc(buf[i]);
      }
      assert buf[..0] == "";
    }

    method Perform(call: Call)
      requires Valid() && WellTyped(call)
      modifies this`logPtr, this`text, ram
      ensures Valid() && text == old(text) + Says(call)
    {
      hide Valid, Digits, Decimal, UpToNul;
      match call
      case Putc(c) => Putc(c);
      case Puts(s) => Puts(s);
      case Puthex8(v) => Puthex8(v);
      case Puthex32(v) => Puthex32(v);
      case Puthex64(v) => Puthex64(v);
      case Putdec(v) => Putdec(v);
    }
  }

  lemma DecimalStart(v: nat)
    ensures v == 0 ==> Decimal(v) == ['0']
    ensures v > 0 ==> Decimal(v) == Leading(v) + Reversed("") && v * Pow(10, 0) <= v
    ensures Leading(0) == Reversed("") == ""
  {
  }

  /** A whole session: install the buffer and make any calls. The memory afterwards is the image of the whole output. */
  method Session(ram: array<char>, buf: nat, size: nat, calls: seq<Call>)
    requires buf != 0 ==> buf + size <= ram.Length
    requires forall k :: 0 <= k < |calls| ==> WellTyped(calls[k])
    modifies ram
    ensures ram[..] == Image(old(ram[..]), buf, size, Output(calls))
  {
    hide Image, WellTyped, Says, Kept;
    var log := new Log(ram, buf, size);
    for k := 0 to |calls|
      invariant log.ram == ram && fresh(log) && log.Valid() && log.text == Output(calls[..k])
      invariant log.before == old(ram[..]) && log.base == buf && log.size == size
    {
      assert calls[..k + 1][..k] == calls[..k];
      log.Perform(calls[k]);
    }
    assert calls[..|calls|] == calls;
  }
}
