/** Fixed-width C++ integer types as the two headers below use them: a type
    is a size and a signedness, a value of it is a mathematical integer in
    its range, and conversions and bitwise operators act on the two's
    complement bit pattern (the C++20 rules). */
module Integers {
  /** An integral type of `bytes` bytes; a scoped enumeration is modelled by
      its underlying type. */
  datatype IntType = IntType(bytes: nat, signed: bool)

  /** The integral types have 1, 2, 4 or 8 bytes; everything below holds for
      any positive size, so only that is required. */
  predicate ValidType(t: IntType) {
    t.bytes > 0
  }

  function Pow2(n: nat): (r: nat)
    ensures r >= 1
  {
    if n == 0 then 1 else 2 * Pow2(n - 1)
  }

  /** `8 * sizeof(T)`. */
  function Width(t: IntType): (w: nat)
    requires ValidType(t)
    ensures w >= 8
  {
    8 * t.bytes
  }

  /** The smallest and largest values of t. */
  function Min(t: IntType): int
    requires ValidType(t)
  {
    if t.signed then -(Pow2(Width(t) - 1) as int) else 0
  }

  function Max(t: IntType): int
    requires ValidType(t)
  {
    if t.signed then Pow2(Width(t) - 1) - 1 else Pow2(Width(t)) - 1
  }

  predicate InRange(t: IntType, v: int)
    requires ValidType(t)
  {
    Min(t) <= v <= Max(t)
  }

  /** The low w bits of x, two's complement for negative x. */
  function Low(x: int, w: nat): (r: nat)
    ensures r < Pow2(w)
    decreases w
  {
    if w == 0 then 0 else 2 * Low(x / 2, w - 1) + x % 2
  }

  /** The value of t whose bit pattern is b. */
  function ToInt(t: IntType, b: nat): (v: int)
    requires ValidType(t) && b < Pow2(Width(t))
    ensures InRange(t, v)
  {
    if t.signed && b >= Pow2(Width(t) - 1) then b - Pow2(Width(t)) else b
  }

  /** `(T)x`: the value of t with the low bits of x. */
  function Convert(t: IntType, x: int): (r: int)
    requires ValidType(t)
    ensures InRange(t, r) && Low(r, Width(t)) == Low(x, Width(t))
    ensures InRange(t, x) ==> r == x
  {
    LowToInt(t, Low(x, Width(t)));
    ToIntLow(t, x);
    ToInt(t, Low(x, Width(t)))
  }

  /** A number that fits in w bits is its own low w bits. */
  lemma {:induction false} LowSmall(x: int, w: nat)
    requires 0 <= x < Pow2(w)
    ensures Low(x, w) == x
    decreases w
  {
    if w > 0 {
      LowSmall(x / 2, w - 1);
    }
  }

  /** Adding a multiple 2^m of 2^w leaves the low w bits alone. */
  lemma {:induction false} LowShift(x: int, m: nat, w: nat)
    requires w <= m
    ensures Low(x + Pow2(m), w) == Low(x, w)
    decreases w
  {
    if w > 0 {
      assert (x + Pow2(m)) / 2 == x / 2 + Pow2(m - 1) && (x + Pow2(m)) % 2 == x % 2;
      LowShift(x / 2, m - 1, w - 1);
    }
  }

  /** The low v bits of the low w bits, v <= w, are the low v bits. */
  lemma {:induction false} LowLow(x: int, v: nat, w: nat)
    requires v <= w
    ensures Low(Low(x, w), v) == Low(x, v)
    decreases v
  {
    if v > 0 {
      assert Low(x, w) / 2 == Low(x / 2, w - 1) && Low(x, w) % 2 == x % 2;
      LowLow(x / 2, v - 1, w - 1);
    }
  }

  /** Reading a pattern as a value of t and taking its bits gives the pattern. */
  lemma LowToInt(t: IntType, b: nat)
    requires ValidType(t) && b < Pow2(Width(t))
    ensures Low(ToInt(t, b), Width(t)) == b
  {
    LowSmall(b, Width(t));
    if ToInt(t, b) != b {
      LowShift(ToInt(t, b), Width(t), Width(t));
    }
  }

  /** A value in range is recovered from its bits. */
  lemma ToIntLow(t: IntType, v: int)
    requires ValidType(t)
    ensures InRange(t, v) ==> ToInt(t, Low(v, Width(t))) == v
  {
    if InRange(t, v) {
      var w := Width(t);
      assert Pow2(w) == 2 * Pow2(w - 1);
      if v >= 0 {
        LowSmall(v, w);
      } else {
        LowShift(v, w, w);
        LowSmall(v + Pow2(w), w);
      }
    }
  }

  /** Two values of t with the same bits are equal. */
  lemma SameBits(t: IntType, u: int, v: int)
    requires ValidType(t) && InRange(t, u) && InRange(t, v)
    requires Low(u, Width(t)) == Low(v, Width(t))
    ensures u == v
  {
    ToIntLow(t, u);
    ToIntLow(t, v);
  }

  /** For a signed type the top bit of a value's pattern is its sign. */
  lemma SignBit(t: IntType, v: int)
    requires ValidType(t) && t.signed && InRange(t, v)
    ensures Low(v, Width(t)) >= Pow2(Width(t) - 1) <==> v < 0
  {
    var w := Width(t);
    assert Pow2(w) == 2 * Pow2(w - 1);
    if v >= 0 {
      LowSmall(v, w);
    } else {
      LowShift(v, w, w);
      LowSmall(v + Pow2(w), w);
    }
  }

  /** Bitwise and, or and exclusive or of non-negative numbers, bit by bit
      from the least significant one. */
  function BitAnd(a: nat, b: nat): nat
    decreases a
  {
    if a == 0 || b == 0 then 0
    else 2 * BitAnd(a / 2, b / 2) + (if a % 2 == 1 && b % 2 == 1 then 1 else 0)
  }

  function BitOr(a: nat, b: nat): nat
    decreases a + b
  {
    if a == 0 then b
    else if b == 0 then a
    else 2 * BitOr(a / 2, b / 2) + (if a % 2 == 1 || b % 2 == 1 then 1 else 0)
  }

  function BitXor(a: nat, b: nat): nat
    decreases a + b
  {
    if a == 0 then b
    else if b == 0 then a
    else 2 * BitXor(a / 2, b / 2) + (if a % 2 != b % 2 then 1 else 0)
  }

  /** With the single bit n, on a number below 2^(n+1): and tests that bit,
      or sets it, exclusive or flips it. */
  lemma {:induction false} TopBit(a: nat, n: nat)
    requires a < Pow2(n + 1)
    ensures BitAnd(a, Pow2(n)) == if a >= Pow2(n) then Pow2(n) else 0
    ensures BitOr(a, Pow2(n)) == if a >= Pow2(n) then a else a + Pow2(n)
    ensures BitXor(a, Pow2(n)) == if a >= Pow2(n) then a - Pow2(n) else a + Pow2(n)
    decreases n
  {
    if n > 0 && a != 0 {
      assert Pow2(n) / 2 == Pow2(n - 1) && Pow2(n) % 2 == 0;
      TopBit(a / 2, n - 1);
    }
  }
}
