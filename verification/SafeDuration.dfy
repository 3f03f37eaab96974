/**
 Converting a count of one time unit to another without overflow, for any integer types of at
 most 64 bits and any positive ratio of the two units. Machine arithmetic is explicit: every
 product and every cast is reduced to its type, so exactness has to be proved.

 The conversion reports no error exactly when the count, the product and the quotient fit their
 types, and then the result is the exact one; a count can be refused although the final value
 would fit, because the product in between does not.
 */
module SafeDuration {
  import opened Powers
  import opened Wrappers

  /** An integer type, by sign and number of value bits. */
  datatype IntType = IntType(signed: bool, digits: nat)

  predicate WellFormed(t: IntType) {
    1 <= t.digits <= if t.signed then 63 else 64
  }

  function Max(t: IntType): int { Pow2(t.digits) - 1 }

  function Min(t: IntType): int { if t.signed then -Pow2(t.digits) else 0 }

  predicate Fits(t: IntType, v: int) { Min(t) <= v <= Max(t) }

  /** A cast or an arithmetic result, reduced to the type. */
  function Reduce(t: IntType, v: int): (r: int)
  {
    Min(t) + (v - Min(t)) % (Max(t) - Min(t) + 1)
  }

  lemma ReduceFits(t: IntType, v: int)
    requires Fits(t, v)
    ensures Reduce(t, v) == v
  {
    SmallMod(v - Min(t), Max(t) - Min(t) + 1);
  }

  lemma SmallMod(a: int, m: int)
    requires 0 <= a < m
    ensures a % m == a
  {
  }

  /** Division of the implementation language: the quotient is truncated towards zero. */
  function TruncDiv(a: int, b: int): int
    requires b > 0
  {
    if a >= 0 then a / b else -((-a) / b)
  }

  lemma DivBounds(a: int, b: int)
    requires b > 0
    ensures a / b * b <= a < a / b * b + b
  {
    assert a == a / b * b + a % b;
  }

  lemma NegProduct(a: int, b: int)
    ensures -a * b == -(a * b)
  {
  }

  function Abs(a: int): nat { if a >= 0 then a else -a }

  lemma MulMono(a: int, b: int, c: int)
    requires a <= b && c > 0
    ensures a * c <= b * c
  {
  }

  lemma QuotientBelow(q: int, m: int, b: int)
    requires b > 0 && q * b <= m < q * b + b
    ensures m / b == q
  {
    DivBounds(m, b);
    if m / b < q { MulMono(m / b + 1, q, b); SuccProduct(m / b, b); }
    if m / b > q { MulMono(q + 1, m / b, b); SuccProduct(q, b); }
  }

  lemma SuccProduct(a: int, b: int)
    ensures (a + 1) * b == a * b + b
  {
  }

  /** The truncated quotient is the multiple count nearest to zero: same sign, remainder below b. */
  lemma TruncDivNearest(a: int, b: int)
    requires b > 0
    ensures Abs(TruncDiv(a, b)) == Abs(a) / b
    ensures (a >= 0 ==> TruncDiv(a, b) >= 0) && (a <= 0 ==> TruncDiv(a, b) <= 0)
    ensures Abs(TruncDiv(a, b)) * b <= Abs(a) < Abs(TruncDiv(a, b)) * b + b
  {
    DivBounds(Abs(a), b);
    QuotientNonNegative(Abs(a), b);
  }

  lemma QuotientNonNegative(a: nat, b: int)
    requires b > 0
    ensures a / b >= 0
  {
  }

  // ---------------------------------------------------------------------------
  // Integral conversion
  // ---------------------------------------------------------------------------

  lemma WiderFits(f: IntType, t: IntType, v: int)
    requires Fits(f, v) && f.digits <= t.digits && (f.signed ==> t.signed || v >= 0)
    ensures Fits(t, v)
  {
    Pow2Mono(f.digits, t.digits);
  }

  /** The maximum of t seen as a value of f, where the code compares in f. */
  lemma MaxSeenFrom(f: IntType, t: IntType)
    requires f.digits >= t.digits
    ensures Reduce(f, Max(t)) == Max(t)
  {
    Pow2Mono(t.digits, f.digits);
    ReduceFits(f, Max(t));
  }

  /** Converts without loss, or reports that the value does not fit. */
  method LosslessConversion(f: IntType, t: IntType, from: int) returns (to: int, ec: int)
    requires WellFormed(f) && WellFormed(t) && Fits(f, from)
    ensures ec == if Fits(t, from) then 0 else 1
    ensures to == if Fits(t, from) then from else 0
  {
    hide Pow2;
    if f.signed == t.signed {
      to, ec := SameSignConversion(f, t, from);
    } else {
      to, ec := MixedSignConversion(f, t, from);
    }
  }

  method SameSignConversion(f: IntType, t: IntType, from: int) returns (to: int, ec: int)
    requires WellFormed(f) && WellFormed(t) && Fits(f, from) && f.signed == t.signed
    ensures ec == if Fits(t, from) then 0 else 1
    ensures to == if Fits(t, from) then from else 0
  {
    hide Pow2, Reduce;
    if f.digits <= t.digits {
      WiderFits(f, t, from);
    } else if from < Min(t) || from > Max(t) {
      return 0, 1;
    }
    ReduceFits(t, from);
    return Reduce(t, from), 0;
  }

  method MixedSignConversion(f: IntType, t: IntType, from: int) returns (to: int, ec: int)
    requires WellFormed(f) && WellFormed(t) && Fits(f, from) && f.signed != t.signed
    ensures ec == if Fits(t, from) then 0 else 1
    ensures to == if Fits(t, from) then from else 0
  {
    hide Pow2, Reduce;
    if f.digits >= t.digits {
      MaxSeenFrom(f, t);
    }
    if f.signed && !t.signed {
      if from < 0 {
        return 0, 1;
      }
      if f.digits > t.digits && from > Reduce(f, Max(t)) {
        return 0, 1;
      }
    }
    if !f.signed && t.signed && f.digits >= t.digits && from > Reduce(f, Max(t)) {
      return 0, 1;
    }
    if f.digits <= t.digits {
      WiderFits(f, t, from);
    }
    ReduceFits(t, from);
    return Reduce(t, from), 0;
  }

  // ---------------------------------------------------------------------------
  // Duration conversion
  // ---------------------------------------------------------------------------

  const INTMAX := IntType(true, 63)
  const UINTMAX := IntType(false, 64)

  /** The common type of both representations and the ratio's 64-bit signed numerator. */
  function Intermediate(f: IntType, t: IntType): IntType {
    if f == UINTMAX || t == UINTMAX then UINTMAX else INTMAX
  }

  predicate Ratio(num: int, den: int) {
    0 < num <= Max(INTMAX) && 0 < den <= Max(INTMAX)
  }

  /** What the conversion promises: the exact truncated count, when every stage fits. */
  function Converted(f: IntType, t: IntType, num: int, den: int, count: int): Option<int>
    requires den > 0
  {
    if Fits(Intermediate(f, t), count) && Fits(Intermediate(f, t), count * num) && Fits(t, TruncDiv(count * num, den))
    then Some(TruncDiv(count * num, den))
    else None
  }

  /** The two range checks before the product are exact. */
  lemma {:induction false} ProductChecks(i: IntType, count: int, num: int)
    requires num > 0
    ensures (TruncDiv(Min(i), num) <= count <= Max(i) / num) <==> Fits(i, count * num)
  {
    hide Pow2;
    UpperCheck(Max(i), count, num);
    LowerCheck(-Min(i), count, num);
  }

  lemma UpperCheck(max: int, count: int, num: int)
    requires num > 0
    ensures count <= max / num <==> count * num <= max
  {
    DivBounds(max, num);
    if count <= max / num { MulMono(count, max / num, num); }
    else { MulMono(max / num + 1, count, num); SuccProduct(max / num, num); }
  }

  lemma LowerCheck(negMin: int, count: int, num: int)
    requires num > 0 && negMin >= 0
    ensures TruncDiv(-negMin, num) <= count <==> -negMin <= count * num
  {
    UpperCheck(negMin, -count, num);
    NegProduct(count, num);
    assert TruncDiv(-negMin, num) == -(negMin / num) by { ZeroQuotient(num); }
  }

  lemma ZeroQuotient(num: int)
    requires num > 0
    ensures 0 / num == 0
  {
  }

  method TimesRatio(i: IntType, count: int, num: int) returns (product: int, ec: int)
    requires num > 0 && Fits(i, count)
    ensures ec == if Fits(i, count * num) then 0 else 1
    ensures product == if Fits(i, count * num) then count * num else 0
  {
    hide Pow2, Reduce, TruncDiv, Max, Min;
    if num != 1 {
      ProductChecks(i, count, num);
      var max1 := Max(i) / num;
      if count > max1 {
        return 0, 1;
      }
      var min1 := TruncDiv(Min(i), num);
      if count < min1 {
        return 0, 1;
      }
      ReduceFits(i, count * num);
      return Reduce(i, count * num), 0;
    }
    TimesOne(count, num);
    return count, 0;
  }

  lemma TimesOne(count: int, num: int)
    requires num == 1
    ensures count * num == count
  {
  }

  /** Dividing never leaves the intermediate type. */
  lemma QuotientFits(i: IntType, a: int, den: int)
    requires den > 0 && Fits(i, a)
    ensures Fits(i, TruncDiv(a, den))
    ensures den == 1 ==> TruncDiv(a, den) == a
  {
    hide Pow2;
    TruncDivNearest(a, den);
    if Abs(TruncDiv(a, den)) > 0 {
      AtLeastItself(Abs(TruncDiv(a, den)), den);
    }
  }

  lemma AtLeastItself(q: nat, den: int)
    requires den > 0
    ensures q <= q * den
  {
    if q > 0 { MulMono(1, den, q); }
  }

  /**
   No error is reported exactly when the count fits the intermediate type, its product with the
   numerator does, and the truncated quotient fits the target; the result is then exact.
   */
  method SafeDurationCast(f: IntType, t: IntType, num: int, den: int, from: int) returns (to: int, ec: int)
    requires WellFormed(f) && WellFormed(t) && Ratio(num, den) && Fits(f, from)
    ensures ec == 0 <==> Converted(f, t, num, den, from).Some?
    ensures ec == 0 ==> Converted(f, t, num, den, from) == Some(to)
    ensures ec != 0 ==> ec == 1 && to == 0
  {
    hide Pow2, Max, Min, Fits;
    var i := Intermediate(f, t);
    var count;
    count, ec := LosslessConversion(f, i, from);
    if ec != 0 {
      return 0, ec;
    }
    count, ec := TimesRatio(i, count, num);
    if ec != 0 {
      return 0, ec;
    }
    QuotientFits(i, count, den);
    if den != 1 {
      count := TruncDiv(count, den);
    }
    to, ec := LosslessConversion(i, t, count);
  }

  // ---------------------------------------------------------------------------
  // What the exact conversion gives
  // ---------------------------------------------------------------------------

  /** Unless a 64-bit unsigned type takes part, the first conversion cannot fail; if one does, only negatives fail. */
  lemma FirstStageFailsOnNegativesOnly(f: IntType, t: IntType, count: int)
    requires WellFormed(f) && WellFormed(t) && Fits(f, count)
    ensures Fits(Intermediate(f, t), count) <==> (count >= 0 || (f != UINTMAX && t != UINTMAX))
  {
    hide Pow2;
    var i := Intermediate(f, t);
    if i == INTMAX {
      Pow2Mono(f.digits, 63);
    } else {
      Pow2Mono(f.digits, 64);
    }
  }

  /** Converting to a unit k times finer and back returns the count. */
  lemma {:induction false} FinerAndBack(f: IntType, t: IntType, k: int, count: int)
    requires k > 0 && Fits(f, count) && Converted(f, t, k, 1, count).Some?
    ensures Converted(t, f, 1, k, Converted(f, t, k, 1, count).value) == Some(count)
  {
    hide Pow2, Max, Min;
    QuotientFits(Intermediate(f, t), count * k, 1);
    TimesOne(count * k, 1);
    ExactQuotient(count, k);
  }

  lemma ExactQuotient(q: int, b: int)
    requires b > 0
    ensures TruncDiv(q * b, b) == q
  {
    NegProduct(q, b);
    QuotientBelow(q, q * b, b);
    QuotientBelow(-q, -q * b, b);
  }

  /** Later stays later: whenever both counts convert, their order is kept. */
  lemma {:induction false} ConversionMonotone(f: IntType, t: IntType, num: int, den: int, a: int, b: int)
    requires num > 0 && den > 0 && a <= b
    ensures Converted(f, t, num, den, a).Some? && Converted(f, t, num, den, b).Some? ==>
      Converted(f, t, num, den, a).value <= Converted(f, t, num, den, b).value
  {
    hide Fits;
    MulMono(a, b, num);
    TruncDivMono(a * num, b * num, den);
  }

  lemma TruncDivMono(x: int, y: int, b: int)
    requires b > 0 && x <= y
    ensures TruncDiv(x, b) <= TruncDiv(y, b)
  {
    if 0 <= x { DivMono(x, y, b); }
    else if y <= 0 { DivMono(-y, -x, b); if y == 0 { ZeroQuotient(b); } }
    else { QuotientNonNegative(-x, b); QuotientNonNegative(y, b); }
  }

  lemma DivMono(x: int, y: int, b: int)
    requires b > 0 && x <= y
    ensures x / b <= y / b
  {
    DivBounds(x, b);
    DivBounds(y, b);
    if x / b > y / b { MulMono(y / b + 1, x / b, b); SuccProduct(y / b, b); }
  }

  /** The check is on the product, so a count can be refused although its converted value would fit. */
  lemma RefusedThoughRepresentable()
    ensures exists count: int :: Fits(INTMAX, count) && Fits(INTMAX, TruncDiv(count * 3, 2)) && Converted(INTMAX, INTMAX, 3, 2, count).None?
  {
    var p := Pow2(61);
    assert Pow2(62) == 2 * p;
    assert Pow2(63) == 2 * Pow2(62);
    var count := 2 * p;
    assert count * 3 == (3 * p) * 2;
    ExactQuotient(3 * p, 2);
    RefusedWitness(count, p);
  }

  lemma RefusedWitness(count: int, p: int)
    requires p > 0 && count == 2 * p && Max(INTMAX) == 4 * p - 1 && Min(INTMAX) == -4 * p && TruncDiv(count * 3, 2) == 3 * p
    ensures Fits(INTMAX, count) && Fits(INTMAX, TruncDiv(count * 3, 2)) && Converted(INTMAX, INTMAX, 3, 2, count).None?
  {
    hide Max, Min, TruncDiv;
  }
}
