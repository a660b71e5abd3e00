/**
 JSON values as both languages of the system read them. A number is the exact value the reader holds,
 an integer of any size or a finite binary fraction, together with whether its token was an integer;
 a string is a sequence of Unicode scalar values.
 */
module Json {

  /** digits / 10^scale in lowest terms, so that equal values have one representation. */
  datatype Fraction = Fraction(digits: int, scale: nat)

  type Decimal = d: Fraction | d.scale == 0 || d.digits % 10 != 0 witness Fraction(0, 0)

  datatype Json =
    | JNull
    | JBool(b: bool)
    | JNumber(value: Decimal, integer: bool)
    | JString(s: string)
    | JArray(items: seq<Json>)
    | JObject(members: map<string, Json>)

  function Power(n: nat): (p: nat)
    ensures p > 0
  {
    if n == 0 then 1 else 10 * Power(n - 1)
  }

  predicate AtMost(a: Decimal, b: Decimal) {
    a.digits * Power(b.scale) <= b.digits * Power(a.scale)
  }

  function Whole(n: int): Decimal {
    Fraction(n, 0)
  }

  lemma {:induction false} PowerAdds(m: nat, n: nat)
    ensures Power(m + n) == Power(m) * Power(n)
  {
    if m > 0 {
      PowerAdds(m - 1, n);
      assert Power(m + n) == 10 * Power(m - 1 + n) == 10 * (Power(m - 1) * Power(n)) == (10 * Power(m - 1)) * Power(n);
    }
  }

  lemma Scaled(a: int, b: int, p: int, q: int)
    requires q > 0 && a * (p * q) == b * q
    ensures b == a * p
  {
    assert (a * p) * q == a * (p * q);
  }

  lemma TimesTen(a: int, p: int)
    ensures (a * (10 * p)) % 10 == 0
  {
    assert a * (10 * p) == 10 * (a * p);
  }

  lemma SameValue(a: Decimal, b: Decimal)
    requires a.scale <= b.scale && a.digits * Power(b.scale) == b.digits * Power(a.scale)
    ensures a == b
  {
    var n := b.scale - a.scale;
    PowerAdds(n, a.scale);
    Scaled(a.digits, b.digits, Power(n), Power(a.scale));
    if n > 0 {
      TimesTen(a.digits, Power(n - 1));
    }
  }

  /** Two numbers are equally large exactly when they are represented alike. */
  lemma EqualValues(a: Decimal, b: Decimal)
    ensures AtMost(a, b) && AtMost(b, a) <==> a == b
  {
    if AtMost(a, b) && AtMost(b, a) {
      if a.scale <= b.scale {
        SameValue(a, b);
      } else {
        SameValue(b, a);
      }
    }
  }

  /** The value as a real number. */
  ghost function Amount(d: Decimal): real {
    d.digits as real / Power(d.scale) as real
  }

  lemma CrossMultiplied(a: real, b: real, p: real, q: real)
    requires p > 0.0 && q > 0.0
    ensures a / p <= b / q <==> a * q <= b * p
  {
    var x, y := a / p, b / q;
    assert a * q == x * (p * q) && b * p == y * (p * q);
    assert p * q > 0.0;
    if x <= y {
      assert x * (p * q) <= y * (p * q);
    } else {
      assert x * (p * q) > y * (p * q);
    }
  }

  /** Comparing numerators over a common denominator compares the numbers. */
  lemma AtMostExact(a: Decimal, b: Decimal)
    ensures AtMost(a, b) <==> Amount(a) <= Amount(b)
  {
    var p, q := Power(a.scale), Power(b.scale);
    CrossMultiplied(a.digits as real, b.digits as real, p as real, q as real);
    assert (a.digits * q) as real == a.digits as real * q as real;
    assert (b.digits * p) as real == b.digits as real * p as real;
  }

  lemma WholeAmount(n: int)
    ensures Amount(Whole(n)) == n as real
  {
  }
}
