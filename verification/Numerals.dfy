/** Printing numbers by reversing their digits arithmetically: int_in_slice of
    lib/cfa/src/builtin.c and print_hex of lib/cfa/src/fmt.c. */
module Numerals {
  import opened Basics
  import opened Options
  import opened Bits
  import opened Memory

  type Base = b: nat | 2 <= b <= 16 witness 10

  predicate Below(ds: seq<nat>, b: nat) {
    forall i :: 0 <= i < |ds| ==> ds[i] < b
  }

  // Division by the base, with the facts about it that the proofs below need.
  function Quotient(n: nat, b: Base): (q: nat)
    ensures q == n / b && b * q <= n < b * q + b && n - b * q == n % b
    ensures n > 0 ==> q < n
  {
    DivBounds(n, b);
    n / b
  }

  lemma DivBounds(n: nat, b: Base)
    ensures b * (n / b) <= n < b * (n / b) + b && n - b * (n / b) == n % b
    ensures n > 0 ==> n / b < n
  {
    var q := n / b;
    assert n == b * q + n % b;
    if q > 0 {
      assert b * q >= 2 * q;
    }
  }

  // The digits of n, most significant first; none for zero.
  function Digits(n: nat, b: Base): (ds: seq<nat>)
    ensures Below(ds, b)
  {
    if n == 0 then [] else Digits(Quotient(n, b), b) + [n - b * Quotient(n, b)]
  }

  // The number that digits denote, most significant first.
  function Value(ds: seq<nat>, b: Base): nat {
    if ds == [] then 0 else b * Value(ds[..|ds| - 1], b) + ds[|ds| - 1]
  }

  // The number that digits denote, least significant first: the reversed
  // accumulator rx of the source.
  function Reversed(ds: seq<nat>, b: Base): nat {
    if ds == [] then 0 else b * Reversed(ds[1..], b) + ds[0]
  }

  function Power(b: nat, e: nat): nat {
    if e == 0 then 1 else b * Power(b, e - 1)
  }

  lemma {:induction false} ValueOfDigits(n: nat, b: Base)
    ensures Value(Digits(n, b), b) == n
  {
    if n > 0 {
      var q := Quotient(n, b);
      ValueOfDigits(q, b);
      assert Digits(n, b)[..|Digits(n, b)| - 1] == Digits(q, b);
    }
  }

  lemma {:induction false} DigitCount(n: nat, b: Base, e: nat)
    requires n < Power(b, e)
    ensures |Digits(n, b)| <= e
  {
    if n > 0 {
      DivBelow(b, Quotient(n, b), Power(b, e - 1));
      DigitCount(Quotient(n, b), b, e - 1);
    }
  }

  lemma DivBelow(b: nat, q: nat, p: nat)
    requires b * q < b * p
    ensures q < p
  {
    if p <= q {
      MulUp(b, p, q);
    }
  }

  lemma MulAdd(b: nat, x: nat, y: nat, d: nat)
    requires x < y && d < b
    ensures b * x + d < b * y
  {
    MulUp(b, x + 1, y);
  }

  // The accumulator stays below b to the number of digits read into it.
  lemma {:induction false} ReversedBound(ds: seq<nat>, b: Base)
    requires Below(ds, b)
    ensures Reversed(ds, b) < Power(b, |ds|)
  {
    if ds != [] {
      ReversedBound(ds[1..], b);
      MulAdd(b, Reversed(ds[1..], b), Power(b, |ds| - 1), ds[0]);
    }
  }

  lemma {:induction false} PowerMonotone(b: Base, e: nat, f: nat)
    requires e <= f
    ensures Power(b, e) <= Power(b, f)
  {
    if e < f {
      PowerMonotone(b, e, f - 1);
      MulUp(Power(b, f - 1), 1, b);
    }
  }

  // The 19 decimal digits of an int64 and the 16 hexadecimal digits of a uint64
  // can be reversed without leaving uint64.
  lemma ReversalFits(n: nat, b: Base, ds: seq<nat>)
    requires (b == 10 && n <= MAX_INT64) || (b == 16 && n < U64)
    requires exists hi :: Digits(n, b) == hi + ds
    ensures Reversed(ds, b) < U64
    ensures |ds| <= if b == 10 then 19 else 16
  {
    var e := if b == 10 then 19 else 16;
    Powers();
    DigitCount(n, b, e);
    var hi :| Digits(n, b) == hi + ds;
    assert forall i :: 0 <= i < |ds| ==> ds[i] == (hi + ds)[|hi| + i];
    ReversedBound(ds, b);
    PowerMonotone(b, |ds|, e);
  }

  lemma Powers()
    ensures Power(10, 19) == 10_000_000_000_000_000_000
    ensures Power(16, 16) == U64
  {
    assert Power(10, 5) == 100_000;
    assert Power(10, 10) == 10_000_000_000;
    assert Power(10, 15) == 1_000_000_000_000_000;
    assert Power(16, 4) == 0x1_0000;
    assert Power(16, 8) == 0x1_0000_0000;
    assert Power(16, 12) == 0x1_0000_0000_0000;
  }

  // One step of the first loop moves the lowest digit of x into the accumulator.
  lemma DigitStep(x: nat, b: Base, low: seq<nat>)
    requires x > 0
    ensures var q := Quotient(x, b);
      var d := x - b * q;
      Digits(q, b) + ([d] + low) == Digits(x, b) + low
      && Reversed([d] + low, b) == b * Reversed(low, b) + d
  {
    var q := Quotient(x, b);
    var d := x - b * q;
    assert ([d] + low)[1..] == low;
    assert Digits(q, b) + ([d] + low) == (Digits(q, b) + [d]) + low;
  }

  /** The first loop: x's digits, counted and reversed. */
  method ReverseDigits(x0: nat, b: Base) returns (rx: nat, nDigits: nat)
    requires (b == 10 && x0 <= MAX_INT64) || (b == 16 && x0 < U64)
    ensures nDigits == |Digits(x0, b)|
    ensures rx == Reversed(Digits(x0, b), b) < U64
  {
    hide Digits, Reversed;
    rx, nDigits := 0, 0;
    var x := x0;
    ghost var low: seq<nat> := [];
    NoDigits(b);
    assert Digits(x, b) + low == Digits(x0, b);
    while x > 0
      invariant 0 <= x
      invariant Digits(x, b) + low == Digits(x0, b)
      invariant rx == Reversed(low, b) && nDigits == |low|
    {
      DigitStep(x, b, low);
      var q := Quotient(x, b);
      low := [x - b * q] + low;
      ReversalFits(x0, b, low);
      rx := b * rx + (x - b * q);
      assert rx < U64;
      x := q;
      nDigits := nDigits + 1;
    }
    assert low == [] + low == Digits(x0, b);
    ReversalFits(x0, b, low);
  }

  lemma NoDigits(b: Base)
    ensures Digits(0, b) == [] && Reversed([], b) == 0
  {
  }

  function Char(d: nat): (c: char)
    requires d < 16
    ensures c != '-'
    ensures DigitOf(c) == d
  {
    "0123456789abcdef"[d]
  }

  function DigitOf(c: char): nat {
    if '0' <= c <= '9' then c as nat - '0' as nat
    else if 'a' <= c <= 'f' then c as nat - 'a' as nat + 10
    else 0
  }

  function Text(ds: seq<nat>): (s: seq<char>)
    requires Below(ds, 16)
    ensures |s| == |ds|
  {
    seq(|ds|, i requires 0 <= i < |ds| => Char(ds[i]))
  }

  function DigitsIn(s: seq<char>): (ds: seq<nat>)
    ensures |ds| == |s|
  {
    seq(|s|, i requires 0 <= i < |s| => DigitOf(s[i]))
  }

  lemma TextRoundTrip(ds: seq<nat>)
    requires Below(ds, 16)
    ensures DigitsIn(Text(ds)) == ds
  {
  }

  // The second loop: the digits in their order, as far as there is room for them. It only
  // asks whether the room is used up, and so knows no end when there was less than none.
  method WriteDigits(mem: array<char>, at: nat, room: int, ghost ds: seq<nat>, b: Base, rx0: nat, nDigits0: nat)
    returns (written: nat)
    requires at + (if 0 <= room <= |ds| then room else |ds|) <= mem.Length
    requires Below(ds, b)
    requires rx0 == Reversed(ds, b) && nDigits0 == |ds|
    modifies mem
    ensures written == if 0 <= room <= |ds| then room else |ds|
    ensures mem[..] == Put(old(mem[..]), at, Text(ds)[..written])
  {
    hide Put;
    var rx, nDigits := rx0, nDigits0;
    var i := 0;
    PutNothing(mem[..], at);
    while nDigits > 0 && room - i != 0
      invariant 0 <= i && (room >= 0 ==> i <= room) && i + nDigits == |ds|
      invariant rx == Reversed(ds[i..], b)
      invariant mem[..] == Put(old(mem[..]), at, Text(ds)[..i])
    {
      ReversedStep(ds[i..], b);
      assert ds[i..][1..] == ds[i + 1..];
      PutChar(mem, at + i, Char(rx % b));
      PutPut(old(mem[..]), at, Text(ds)[..i], [Text(ds)[i]]);
      assert Text(ds)[..i] + [Text(ds)[i]] == Text(ds)[..i + 1];
      i := i + 1;
      rx := rx / b;
      nDigits := nDigits - 1;
    }
    written := i;
  }

  lemma ReversedStep(ds: seq<nat>, b: Base)
    requires ds != [] && ds[0] < b
    ensures Reversed(ds, b) % b == ds[0] && Reversed(ds, b) / b == Reversed(ds[1..], b)
  {
    ModUnique(Reversed(ds, b), b, Reversed(ds[1..], b), ds[0]);
  }

  // The whole text for x.
  function IntText(x: int): (s: seq<char>)
    ensures |s| > 0
  {
    if x == 0 then "0"
    else if x < 0 then "-" + Text(Digits(-x, 10))
    else PositiveHasDigits(x, 10); Text(Digits(x, 10))
  }

  lemma PositiveHasDigits(x: nat, b: Base)
    requires x > 0
    ensures Digits(x, b) != []
  {
  }

  function ParseInt(s: seq<char>): int {
    if s != [] && s[0] == '-' then 0 - Value(DigitsIn(s[1..]), 10)
    else Value(DigitsIn(s), 10)
  }

  // Parsing undoes printing, trailing zeros included.
  lemma IntRoundTrip(x: int)
    ensures ParseInt(IntText(x)) == x
  {
    hide Digits, Value;
    var n := if x < 0 then -x else x;
    ValueOfDigits(n, 10);
    TextRoundTrip(Digits(n, 10));
    if x < 0 {
      assert IntText(x)[1..] == Text(Digits(n, 10));
    } else if x == 0 {
      ZeroParses();
    } else {
      PositiveHasDigits(x, 10);
    }
  }

  lemma ZeroParses()
    ensures ParseInt("0") == 0
  {
    assert DigitsIn("0") == [0];
    assert Value([0], 10) == Value([0][..0], 10) * 10 + 0;
  }

  /** int_in_slice: the text of x, cut to the capacity of the slice. */
  method IntInSlice(mem: array<char>, s: Slice, x: int) returns (i: nat)
    requires Fits(s, mem)
    requires -MAX_INT64 <= x <= MAX_INT64
    modifies mem
    ensures i == if |IntText(x)| <= s.cap then |IntText(x)| else s.cap
    ensures mem[..] == Put(old(mem[..]), s.base, IntText(x)[..i])
  {
    hide Put, IntText, Digits, Reversed;
    i := 0;
    PutNothing(mem[..], s.base);
    if s.cap == 0 {
      return;
    }
    IntTextParts(x);
    if x == 0 {
      PutChar(mem, s.base, '0');
      assert IntText(x)[..1] == "0";
      return 1;
    }
    var n := x;
    ghost var sign := "";
    if x < 0 {
      n := -x;
      PutChar(mem, s.base, '-');
      i := 1;
      sign := "-";
    }
    var rx, nDigits := ReverseDigits(n, 10);
    ghost var text := Text(Digits(n, 10));
    var w := WriteDigits(mem, s.base + i, s.cap - i, Digits(n, 10), 10, rx, nDigits);
    PutPut(old(mem[..]), s.base, sign, text[..w]);
    i := i + w;
    assert IntText(x)[..i] == sign + text[..w];
  }

  lemma IntTextParts(x: int)
    ensures x < 0 ==> IntText(x) == "-" + Text(Digits(-x, 10))
    ensures x == 0 ==> IntText(x) == "0"
    ensures x > 0 ==> IntText(x) == "" + Text(Digits(x, 10))
  {
  }

  // The text that print_hex is meant to write, with no digit at all for zero.
  function HexText(num: nat): seq<char> {
    "0x" + Text(Digits(num, 16))
  }

  function ParseHex(s: seq<char>): Option<nat> {
    if |s| >= 2 && s[0] == '0' && s[1] == 'x' then Some(Value(DigitsIn(s[2..]), 16)) else None
  }

  lemma HexRoundTrip(num: nat)
    ensures ParseHex(HexText(num)) == Some(num)
  {
    ValueOfDigits(num, 16);
    TextRoundTrip(Digits(num, 16));
    assert HexText(num)[2..] == Text(Digits(num, 16));
  }

  lemma NoDigitForZero(num: nat)
    ensures |HexText(num)| > 2 <==> num > 0
    ensures num < U64 ==> |HexText(num)| <= 18
  {
    if num < U64 {
      Powers();
      DigitCount(num, 16, 16);
    }
  }

  /** print_hex. The capacity becomes an int, and the text is cut to it unless that is
      negative; so it is whole if and only if the low 32 bits of the capacity are not a
      number below its length. Close to the least int the loop's difference overflows. */
  method PrintHex(mem: array<char>, s: Slice, num: nat) returns (i: nat)
    requires Fits(s, mem) && num < U64 && s.cap < U64 && ToInt32(s.cap) >= -0x8000_0000 + 18
    modifies mem
    ensures var bound := ToInt32(s.cap);
      i == if 0 <= bound < |HexText(num)| then bound else |HexText(num)|
    ensures s.base + i <= mem.Length && mem[..] == Put(old(mem[..]), s.base, HexText(num)[..i])
  {
    hide Put, Digits;
    PutNothing(mem[..], s.base);
    NoDigitForZero(num);
    i := 0;
    var bound := ToInt32(s.cap);
    if bound == 0 {
      return;
    }
    PutChar(mem, s.base, '0');
    i := 1;
    assert HexText(num)[..1] == "0";
    if bound - i == 0 {
      return;
    }
    PutChar(mem, s.base + 1, 'x');
    PutPut(old(mem[..]), s.base, "0", "x");
    assert "0" + "x" == "0x";
    assert HexText(num)[..2] == "0x";
    i := 2;
    var rx, nDigits := ReverseDigits(num, 16);
    ghost var ds := Digits(num, 16);
    var w := WriteDigits(mem, s.base + i, bound - i, ds, 16, rx, nDigits);
    PutPut(old(mem[..]), s.base, "0x", Text(ds)[..w]);
    i := i + w;
    assert HexText(num)[..i] == "0x" + Text(ds)[..w];
  }
}
