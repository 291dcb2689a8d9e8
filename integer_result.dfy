/** `integer_result<T, E>` (integer_result.hpp): a T that holds either a
    value or an error, told apart by the top bit of T. */
module IntegerResult {
  import opened Integers

  /** A result of type T = t whose error type E = e; `stored` is `_value`. */
  datatype IntegerResult = IntegerResult(t: IntType, e: IntType, stored: int)

  /** The two `static_assert`s: E no wider than T. */
  predicate Compatible(t: IntType, e: IntType) {
    ValidType(t) && ValidType(e) && e.bytes <= t.bytes
  }

  predicate Valid(r: IntegerResult) {
    Compatible(r.t, r.e) && InRange(r.t, r.stored)
  }

  /** `error_bit`, `(T)((T)1 << (8 * sizeof(T) - 1))`: the value of T whose
      only set bit is the top one; for signed T that is the minimum. */
  function ErrorBit(t: IntType): (b: int)
    requires ValidType(t)
    ensures InRange(t, b) && Low(b, Width(t)) == Pow2(Width(t) - 1)
    ensures b == if t.signed then Min(t) else Pow2(Width(t) - 1)
  {
    assert Pow2(Width(t)) == 2 * Pow2(Width(t) - 1);
    LowSmall(Pow2(Width(t) - 1), Width(t));
    Convert(t, Pow2(Width(t) - 1))
  }

  /** `integer_result(type value)`: the value is stored as it is. */
  function FromValue(t: IntType, e: IntType, v: int): (r: IntegerResult)
    requires Compatible(t, e) && InRange(t, v)
    ensures Valid(r)
    ensures r.stored == v && r.t == t && r.e == e
  {
    IntegerResult(t, e, v)
  }

  /** `is_error`: the top bit of the stored value is set. The bitwise and is
      taken on the Width(T)-bit patterns, which is what the promoted
      operation has in its low bits. */
  predicate IsError(r: IntegerResult): (b: bool)
    requires Valid(r)
    ensures b <==> Low(r.stored, Width(r.t)) >= Pow2(Width(r.t) - 1)
  {
    TopBit(Low(r.stored, Width(r.t)), Width(r.t) - 1);
    BitAnd(Low(r.stored, Width(r.t)), Low(ErrorBit(r.t), Width(r.t))) != 0
  }

  /** `is_value`: the top bit of the stored value is clear. */
  predicate IsValue(r: IntegerResult): (b: bool)
    requires Valid(r)
    ensures b <==> Low(r.stored, Width(r.t)) < Pow2(Width(r.t) - 1)
  {
    TopBit(Low(r.stored, Width(r.t)), Width(r.t) - 1);
    BitAnd(Low(r.stored, Width(r.t)), Low(ErrorBit(r.t), Width(r.t))) == 0
  }

  /** `integer_result(U error)`: `(T)((T)error | error_bit)`. Always an
      error. */
  function FromError(t: IntType, e: IntType, err: int): (r: IntegerResult)
    requires Compatible(t, e) && InRange(e, err)
    ensures Valid(r) && IsError(r)
  {
    var w := Width(t);
    var p := BitOr(Low(Convert(t, err), w), Low(ErrorBit(t), w));
    OrTopBit(Low(err, w), w);
    ErrorIffTopBit(IntegerResult(t, e, Convert(t, p)));
    IntegerResult(t, e, Convert(t, p))
  }

  /** `value()`: asserts `is_value()` and returns the stored value. */
  function Value(r: IntegerResult): (v: int)
    requires Valid(r) && IsValue(r)
    ensures InRange(r.t, v) && FromValue(r.t, r.e, v) == r
  {
    r.stored
  }

  /** `error()`: asserts `is_error()` and returns
      `(E)(_value ^ error_bit)`. */
  function Error(r: IntegerResult): (err: int)
    requires Valid(r) && IsError(r)
    ensures InRange(r.e, err)
  {
    Convert(r.e, BitXor(Low(r.stored, Width(r.t)), Low(ErrorBit(r.t), Width(r.t))))
  }

  /** Setting the top bit of a w-bit pattern a leaves a w-bit pattern with
      the top bit set. */
  lemma OrTopBit(a: nat, w: nat)
    requires w >= 1 && a < Pow2(w)
    ensures var p := BitOr(a, Pow2(w - 1));
      Pow2(w - 1) <= p < Pow2(w) && Low(p, w) == p
      && (p == if a >= Pow2(w - 1) then a else a + Pow2(w - 1))
  {
    TopBit(a, w - 1);
    LowSmall(BitOr(a, Pow2(w - 1)), w);
  }

  /** `is_error` tests exactly the top bit, `is_value` is its negation, and
      for signed T an error is exactly a negative stored value. */
  lemma ErrorIffTopBit(r: IntegerResult)
    requires Valid(r)
    ensures IsError(r) <==> Low(r.stored, Width(r.t)) >= Pow2(Width(r.t) - 1)
    ensures IsValue(r) <==> !IsError(r)
    ensures r.t.signed ==> (IsError(r) <==> r.stored < 0)
  {
    TopBit(Low(r.stored, Width(r.t)), Width(r.t) - 1);
    if r.t.signed {
      SignBit(r.t, r.stored);
    }
  }

  /** A value built from a plain value is an error exactly when its top bit
      is set: for signed T when it is negative. */
  lemma FromValueClassification(t: IntType, e: IntType, v: int)
    requires Compatible(t, e) && InRange(t, v)
    ensures IsError(FromValue(t, e, v)) <==> if t.signed then v < 0 else v >= Pow2(Width(t) - 1)
    ensures IsValue(FromValue(t, e, v)) ==> Value(FromValue(t, e, v)) == v
  {
    ErrorIffTopBit(FromValue(t, e, v));
    if !t.signed {
      LowSmall(v, Width(t));
    }
  }

  /** The stored pattern of a result built from err: err's low Width(T)
      bits with the top one set. */
  lemma StoredOfFromError(t: IntType, e: IntType, err: int)
    requires Compatible(t, e) && InRange(e, err)
    ensures Low(FromError(t, e, err).stored, Width(t)) == BitOr(Low(err, Width(t)), Pow2(Width(t) - 1))
  {
    var w := Width(t);
    assert BitOr(Low(Convert(t, err), w), Low(ErrorBit(t), w)) == BitOr(Low(err, w), Pow2(w - 1));
    OrTopBit(Low(err, w), w);
  }

  /** Setting the top bit and then flipping it clears it. */
  lemma XorAfterOr(a: nat, w: nat)
    requires w >= 1 && a < Pow2(w)
    ensures BitXor(BitOr(a, Pow2(w - 1)), Pow2(w - 1))
         == if a >= Pow2(w - 1) then a - Pow2(w - 1) else a
  {
    OrTopBit(a, w);
    TopBit(BitOr(a, Pow2(w - 1)), w - 1);
  }

  /** `error()` flips the top bit of the stored pattern. */
  lemma ErrorFlipsTopBit(r: IntegerResult)
    requires Valid(r) && IsError(r)
    ensures Error(r) == Convert(r.e, BitXor(Low(r.stored, Width(r.t)), Pow2(Width(r.t) - 1)))
  {
  }

  /** What `error()` computes on a result built from err: the low Width(T)
      bits of err with the top one cleared, converted to E. */
  lemma ErrorOfFromError(t: IntType, e: IntType, err: int)
    requires Compatible(t, e) && InRange(e, err)
    ensures var a := Low(err, Width(t));
      Error(FromError(t, e, err)) == Convert(e, if a >= Pow2(Width(t) - 1) then a - Pow2(Width(t) - 1) else a)
  {
    ErrorFlipsTopBit(FromError(t, e, err));
    StoredOfFromError(t, e, err);
    XorAfterOr(Low(err, Width(t)), Width(t));
  }

  /** An error whose top bit, at T's width, is clear comes back unchanged. */
  lemma TopClearRoundTrip(t: IntType, e: IntType, err: int)
    requires Compatible(t, e) && InRange(e, err)
    requires Low(err, Width(t)) < Pow2(Width(t) - 1)
    ensures Convert(e, Low(err, Width(t))) == err
  {
    LowLow(err, Width(e), Width(t));
    SameBits(e, Convert(e, Low(err, Width(t))), err);
  }

  /** An error of a type narrower than T comes back unchanged: the top bit of
      T lies outside it. */
  lemma NarrowRoundTrip(t: IntType, e: IntType, err: int)
    requires Compatible(t, e) && InRange(e, err) && e.bytes < t.bytes
    requires Low(err, Width(t)) >= Pow2(Width(t) - 1)
    ensures Convert(e, Low(err, Width(t)) - Pow2(Width(t) - 1)) == err
  {
    var w := Width(t);
    var h := Pow2(w - 1);
    var a := Low(err, w);
    LowLow(err, Width(e), w);
    assert Low(a - h, Width(e)) == Low(a, Width(e)) by {
      LowShift(a - h, w - 1, Width(e));
    }
    SameBits(e, Convert(e, a - h), err);
  }

  /** An error as wide as T with its top bit set loses that bit. */
  lemma TopSetLost(t: IntType, e: IntType, err: int)
    requires Compatible(t, e) && InRange(e, err) && e.bytes == t.bytes
    requires Low(err, Width(t)) >= Pow2(Width(t) - 1)
    ensures Convert(e, Low(err, Width(t)) - Pow2(Width(t) - 1)) != err
  {
    var w := Width(t);
    assert Width(e) == w;
    LowSmall(Low(err, w) - Pow2(w - 1), w);
  }

  /** The error round trip: `error()` gives back the error a result was built
      from exactly when E is narrower than T or the error's own top bit is
      clear; otherwise the exclusive or also clears that bit of the error. */
  lemma ErrorRoundTrip(t: IntType, e: IntType, err: int)
    requires Compatible(t, e) && InRange(e, err)
    ensures Error(FromError(t, e, err)) == err
        <==> e.bytes < t.bytes || Low(err, Width(e)) < Pow2(Width(e) - 1)
  {
    var a := Low(err, Width(t));
    var h := Pow2(Width(t) - 1);
    assert Error(FromError(t, e, err)) == Convert(e, if a >= h then a - h else a) by {
      ErrorOfFromError(t, e, err);
    }
    if a < h {
      assert Convert(e, a) == err by {
        TopClearRoundTrip(t, e, err);
      }
      assert e.bytes == t.bytes ==> Low(err, Width(e)) < Pow2(Width(e) - 1);
    } else if e.bytes < t.bytes {
      assert Convert(e, a - h) == err by {
        NarrowRoundTrip(t, e, err);
      }
    } else {
      assert Convert(e, a - h) != err by {
        TopSetLost(t, e, err);
      }
      assert Width(e) == Width(t);
    }
  }
}
