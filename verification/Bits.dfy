/** The bitwise operators of the C code on unsigned integers, defined bit by bit,
    and what its mask and power-of-two idioms mean arithmetically. */
module Bits {
  // One more than the largest value of uint64 and uintptr.
  const U64: int := 0x1_0000_0000_0000_0000
  const MAX_INT64: int := 0x7FFF_FFFF_FFFF_FFFF

  // A sum or difference in 64 bits.
  function Wrap(x: int): (r: nat)
    ensures r < U64
    ensures 0 <= x < U64 ==> r == x
    ensures x >= U64 ==> r <= x - U64
    ensures -U64 <= x < 0 ==> r == x + U64
  {
    x % U64
  }

  type int32 = x: int | -0x8000_0000 <= x < 0x8000_0000

  // What is left of an integer that is narrowed to int.
  function ToInt32(x: int): int32 {
    (x + 0x8000_0000) % 0x1_0000_0000 - 0x8000_0000
  }

  // It is the one int that differs from x by a multiple of 2^32.
  lemma NarrowingIsCongruent(x: int, y: int32)
    ensures (x - y) % 0x1_0000_0000 == 0 <==> y == ToInt32(x)
  {
    var m := 0x1_0000_0000;
    var d := (x - y) / m;
    assert x - y == m * d + (x - y) % m;
    if (x - y) % m == 0 {
      ModUnique(x + 0x8000_0000, m, d, y + 0x8000_0000);
    } else if y == ToInt32(x) {
      ModUnique(x - y, m, (x + 0x8000_0000) / m, 0);
    }
  }

  function Pow2(k: nat): (r: nat)
    ensures r >= 1
  {
    if k == 0 then 1 else 2 * Pow2(k - 1)
  }

  function And(x: nat, y: nat): nat {
    if x == 0 || y == 0 then 0
    else 2 * And(x / 2, y / 2) + (if x % 2 == 1 && y % 2 == 1 then 1 else 0)
  }

  function Or(x: nat, y: nat): nat {
    if x == 0 && y == 0 then 0
    else 2 * Or(x / 2, y / 2) + (if x % 2 == 1 || y % 2 == 1 then 1 else 0)
  }

  function Xor(x: nat, y: nat): nat {
    if x == 0 && y == 0 then 0
    else 2 * Xor(x / 2, y / 2) + (if x % 2 != y % 2 then 1 else 0)
  }

  lemma HalfMod(x: nat, p: nat)
    requires p > 0
    ensures x % (2 * p) == 2 * ((x / 2) % p) + x % 2
  {
    var q, r := (x / 2) / p, (x / 2) % p;
    assert x == (2 * p) * q + (2 * r + x % 2);
    ModUnique(x, 2 * p, q, 2 * r + x % 2);
  }

  lemma ModUnique(x: int, m: int, q: int, r: int)
    requires m > 0 && 0 <= r < m && x == m * q + r
    ensures x / m == q && x % m == r
  {
    var d := x / m - q;
    assert m * d == r - x % m;
    MulApart(m, d);
  }

  lemma MulApart(m: int, d: int)
    requires m > 0
    ensures d >= 1 ==> m * d >= m
    ensures d <= -1 ==> m * d <= -m
  {
  }

  // Masking with one less than a power of two takes the remainder.
  lemma {:induction false} AndMask(x: nat, k: nat)
    ensures And(x, Pow2(k) - 1) == x % Pow2(k)
  {
    if k > 0 {
      var p := Pow2(k - 1);
      AndMask(x / 2, k - 1);
      HalfMod(x, p);
      AndOdd(x, p);
    }
  }

  lemma AndOdd(x: nat, p: nat)
    requires p > 0
    ensures And(x, 2 * p - 1) == 2 * And(x / 2, p - 1) + x % 2
  {
    assert (2 * p - 1) / 2 == p - 1 && (2 * p - 1) % 2 == 1;
  }

  lemma {:induction false} OrMask(x: nat, y: nat, k: nat)
    ensures Or(x, y) % Pow2(k) == 0 <==> x % Pow2(k) == 0 && y % Pow2(k) == 0
  {
    if k > 0 && (x > 0 || y > 0) {
      OrMask(x / 2, y / 2, k - 1);
      HalfMod(x, Pow2(k - 1));
      HalfMod(y, Pow2(k - 1));
      HalfMod(Or(x, y), Pow2(k - 1));
    }
  }

  lemma {:induction false} XorMask(x: nat, y: nat, k: nat)
    ensures Xor(x, y) % Pow2(k) == 0 <==> x % Pow2(k) == y % Pow2(k)
  {
    if k > 0 && (x > 0 || y > 0) {
      XorMask(x / 2, y / 2, k - 1);
      HalfMod(x, Pow2(k - 1));
      HalfMod(y, Pow2(k - 1));
      HalfMod(Xor(x, y), Pow2(k - 1));
    }
  }

  // n - 1 wraps around for n == 0, as it does in C.
  predicate IsPowerOfTwo(n: nat) {
    And(n, if n == 0 then U64 - 1 else n - 1) == 0
  }

  lemma ZeroPasses()
    ensures IsPowerOfTwo(0)
  {
  }

  // The test accepts exactly the powers of two, and zero.
  lemma PowerOfTwoTest(n: nat)
    ensures IsPowerOfTwo(n) <==> n == 0 || exists k: nat :: n == Pow2(k)
  {
    ZeroPasses();
    hide And, Pow2;
    if n > 0 {
      if IsPowerOfTwo(n) {
        var k := LogOf(n);
      }
      forall k: nat | n == Pow2(k)
        ensures IsPowerOfTwo(n)
      {
        AndMask(n, k);
      }
    }
  }

  lemma {:induction false} AndSelf(n: nat)
    ensures And(n, n) == n
  {
    if n > 0 {
      AndSelf(n / 2);
    }
  }

  lemma {:induction false} LogOf(n: nat) returns (k: nat)
    requires n > 0 && And(n, n - 1) == 0
    ensures n == Pow2(k)
  {
    if n == 1 {
      k := 0;
    } else {
      var h := n / 2;
      AndSelf(h);
      assert (n - 1) / 2 == if n % 2 == 1 then h else h - 1;
      k := LogOf(h);
      k := k + 1;
    }
  }

  // The least multiple of align that is not below ptr. Zero passes the source's
  // power-of-two test too, so callers must exclude it.
  function AlignForward(ptr: nat, align: nat): (p: nat)
    requires align > 0 && IsPowerOfTwo(align)
    ensures p % align == 0
    ensures ptr <= p < ptr + align
  {
    var modulo := And(ptr, align - 1);
    AlignModulo(ptr, align);
    if modulo != 0 then ptr + align - modulo else ptr
  }

  // No multiple of align lies between ptr and the result.
  lemma AlignForwardIsLeast(ptr: nat, align: nat, m: nat)
    requires align > 0 && IsPowerOfTwo(align)
    requires ptr <= m && m % align == 0
    ensures AlignForward(ptr, align) <= m
  {
    hide IsPowerOfTwo;
    var p := AlignForward(ptr, align);
    if m < p {
      var d := p / align - m / align;
      assert p - m == align * d;
      MulApart(align, d);
    }
  }

  lemma AlignedAlready(ptr: nat, align: nat)
    requires align > 0 && IsPowerOfTwo(align) && ptr % align == 0
    ensures AlignForward(ptr, align) == ptr
  {
    hide IsPowerOfTwo;
    AlignForwardIsLeast(ptr, align, ptr);
  }

  lemma AlignModulo(ptr: nat, align: nat)
    requires align > 0 && IsPowerOfTwo(align)
    ensures And(ptr, align - 1) == ptr % align
    ensures (ptr + align - ptr % align) % align == 0
  {
    hide Pow2, And;
    PowerOfTwoTest(align);
    var k: nat :| align == Pow2(k);
    AndMask(ptr, k);
    RoundUp(ptr, align);
  }

  lemma RoundUp(x: nat, a: nat)
    requires a > 0
    ensures (x + a - x % a) % a == 0
  {
    ModUnique(x + a - x % a, a, x / a + 1, 0);
  }

  lemma {:induction false} Pow2Add(j: nat, k: nat)
    ensures Pow2(j + k) == Pow2(j) * Pow2(k)
  {
    if j > 0 {
      Pow2Add(j - 1, k);
      assert Pow2(j) * Pow2(k) == 2 * (Pow2(j - 1) * Pow2(k));
    }
  }

  lemma WordIsPower()
    ensures Pow2(64) == U64
  {
    EightIsPower();
    hide Pow2;
    Pow2Add(3, 3);
    Pow2Add(3, 6);
    Pow2Add(9, 9);
    Pow2Add(18, 18);
    Pow2Add(36, 18);
    Pow2Add(54, 9);
    OneBit();
    Pow2Add(63, 1);
  }

  lemma OneBit()
    ensures Pow2(1) == 2
  {
  }

  // 2^64 is a multiple of every power of two that fits 64 bits.
  lemma WordIsMultiple(align: nat)
    requires 0 < align < U64 && IsPowerOfTwo(align)
    ensures U64 % align == 0
  {
    PowerOfTwoTest(align);
    WordIsPower();
    hide IsPowerOfTwo, Pow2;
    var k: nat :| align == Pow2(k);
    if k >= 64 {
      Pow2Add(64, k - 64);
      MulApart(U64, Pow2(k - 64));
    } else {
      Pow2Add(k, 64 - k);
      ModUnique(U64, align, Pow2(64 - k), 0);
    }
  }

  lemma OneIsPower()
    ensures IsPowerOfTwo(1)
  {
  }

  lemma EightIsPower()
    ensures IsPowerOfTwo(8) && Pow2(3) == 8
  {
    assert Pow2(3) == 2 * Pow2(2) == 4 * Pow2(1) == 8 * Pow2(0);
    AndMask(8, 3);
  }
}
