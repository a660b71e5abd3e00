/** Decimal numerals, code-point order and joining of strings. */
module Text {

  // ---- Decimal numerals -------------------------------------------------------------------

  predicate IsDigit(c: char) {
    '0' <= c <= '9'
  }

  function DigitChar(d: nat): (c: char)
    requires d < 10
    ensures IsDigit(c)
  {
    '0' + d as char
  }

  function DigitValue(c: char): nat
    requires IsDigit(c)
  {
    (c - '0') as nat
  }

  /** The numeral a template string or an f-string prints for n. */
  function Decimal(n: nat): (s: string)
    ensures s != []
  {
    if n < 10 then [DigitChar(n)] else Decimal(n / 10) + [DigitChar(n % 10)]
  }

  predicate AllDigits(s: string) {
    forall i | 0 <= i < |s| :: IsDigit(s[i])
  }

  /** The number a string of digits denotes; leading zeros are harmless here. */
  function Numeral(s: string): nat
    requires AllDigits(s)
  {
    if s == [] then 0 else 10 * Numeral(s[..|s| - 1]) + DigitValue(s[|s| - 1])
  }

  /** The language of the pattern (?:0|[1-9][0-9]*). */
  predicate IsCanonicalNumeral(s: string) {
    s != [] && AllDigits(s) && (s[0] == '0' ==> |s| == 1)
  }

  lemma {:induction false} DecimalRoundTrip(n: nat)
    ensures IsCanonicalNumeral(Decimal(n)) && Numeral(Decimal(n)) == n
    ensures n > 0 ==> Decimal(n)[0] != '0'
  {
    if n < 10 {
      assert [DigitChar(n)][..0] == [];
    } else {
      DecimalRoundTrip(n / 10);
      var s := Decimal(n);
      assert s[..|s| - 1] == Decimal(n / 10);
      assert s[0] == Decimal(n / 10)[0];
    }
  }

  lemma LastDigit(a: nat, c: char)
    requires IsDigit(c)
    ensures (10 * a + DigitValue(c)) / 10 == a && DigitChar((10 * a + DigitValue(c)) % 10) == c
  {
  }

  lemma DecimalOfDigit(c: char)
    requires IsDigit(c)
    ensures Decimal(DigitValue(c)) == [c]
  {
  }

  lemma DecimalAppends(a: nat, c: char)
    requires a > 0 && IsDigit(c)
    ensures Decimal(10 * a + DigitValue(c)) == Decimal(a) + [c]
  {
    var n := 10 * a + DigitValue(c);
    LastDigit(a, c);
    assert Decimal(n) == Decimal(n / 10) + [DigitChar(n % 10)];
  }

  lemma {:induction false} CanonicalNumeralIsDecimal(s: string)
    requires IsCanonicalNumeral(s)
    ensures Decimal(Numeral(s)) == s
    ensures s[0] != '0' ==> Numeral(s) > 0
  {
    var n := |s| - 1;
    var front, last := s[..n], s[n];
    assert s == front + [last];
    assert Numeral(s) == 10 * Numeral(front) + DigitValue(last);
    if front == [] {
      DecimalOfDigit(last);
    } else {
      assert front[0] == s[0];
      CanonicalNumeralIsDecimal(front);
      DecimalAppends(Numeral(front), last);
    }
  }

  lemma DecimalInjective(m: nat, n: nat)
    requires Decimal(m) == Decimal(n)
    ensures m == n
  {
    DecimalRoundTrip(m);
    DecimalRoundTrip(n);
  }

  // ---- Code-point order -------------------------------------------------------------------

  /** The order in which Python compares strings. */
  predicate Leq(s: string, t: string) {
    s == [] || (t != [] && (s[0] < t[0] || (s[0] == t[0] && Leq(s[1..], t[1..]))))
  }

  /** Text comes before every extension of it, and otherwise the first difference decides. */
  lemma {:induction false} LeqExact(s: string, t: string)
    ensures Leq(s, t) <==> s <= t || exists i | 0 <= i < |s| && i < |t| :: s[..i] == t[..i] && s[i] < t[i]
  {
    if s != [] && t != [] && s[0] == t[0] {
      LeqExact(s[1..], t[1..]);
      assert s <= t <==> s[1..] <= t[1..];
      if i :| 0 <= i < |s| && i < |t| && s[..i] == t[..i] && s[i] < t[i] {
        assert i > 0 && s[1..][..i - 1] == s[..i][1..] && t[1..][..i - 1] == t[..i][1..];
      }
      if i :| 0 <= i < |s| - 1 && i < |t| - 1 && s[1..][..i] == t[1..][..i] && s[1..][i] < t[1..][i] {
        assert s[..i + 1] == [s[0]] + s[1..][..i] && t[..i + 1] == [t[0]] + t[1..][..i];
        assert s[i + 1] < t[i + 1];
      }
    } else if s != [] && t != [] && s[0] < t[0] {
      assert s[..0] == t[..0];
    }
  }

  lemma {:induction false} LeqTotal(s: string, t: string)
    ensures Leq(s, t) || Leq(t, s)
  {
    if s != [] && t != [] && s[0] == t[0] {
      LeqTotal(s[1..], t[1..]);
    }
  }

  lemma {:induction false} LeqAntisymmetric(s: string, t: string)
    requires Leq(s, t) && Leq(t, s)
    ensures s == t
  {
    if s != [] {
      LeqAntisymmetric(s[1..], t[1..]);
      assert s == [s[0]] + s[1..] && t == [t[0]] + t[1..];
    }
  }

  lemma {:induction false} LeqTransitive(s: string, t: string, u: string)
    requires Leq(s, t) && Leq(t, u)
    ensures Leq(s, u)
  {
    if s != [] && s[0] == t[0] == u[0] {
      LeqTransitive(s[1..], t[1..], u[1..]);
    }
  }

  // ---- Joining ----------------------------------------------------------------------------

  function Join(parts: seq<string>, separator: char): string {
    if parts == [] then []
    else if |parts| == 1 then parts[0]
    else parts[0] + [separator] + Join(parts[1..], separator)
  }

  /** How far a text runs before its first separator. */
  function PartLength(s: string, separator: char): nat {
    if s == [] || s[0] == separator then 0 else 1 + PartLength(s[1..], separator)
  }

  lemma {:induction false} PartEnds(a: string, rest: string, separator: char)
    requires separator !in a && (rest == [] || rest[0] == separator)
    ensures PartLength(a + rest, separator) == |a|
  {
    if a == [] {
      assert a + rest == rest;
    } else {
      assert (a + rest)[1..] == a[1..] + rest;
      PartEnds(a[1..], rest, separator);
    }
  }

  /** The first part of a joined text can be read back, whatever follows it. */
  lemma FirstPartEnds(a: string, b: string, restA: string, restB: string, separator: char)
    requires separator !in a && separator !in b
    requires restA == [] || restA[0] == separator
    requires restB == [] || restB[0] == separator
    requires a + restA == b + restB
    ensures a == b && restA == restB
  {
    PartEnds(a, restA, separator);
    PartEnds(b, restB, separator);
    assert (a + restA)[..|a|] == a && (b + restB)[..|a|] == b;
    assert (a + restA)[|a|..] == restA && (b + restB)[|a|..] == restB;
  }

  /** Joining loses nothing when no part is empty or holds the separator. */
  lemma {:induction false} JoinInjective(xs: seq<string>, ys: seq<string>, separator: char)
    requires forall i | 0 <= i < |xs| :: xs[i] != [] && separator !in xs[i]
    requires forall i | 0 <= i < |ys| :: ys[i] != [] && separator !in ys[i]
    requires Join(xs, separator) == Join(ys, separator)
    ensures xs == ys
  {
    if xs != [] && ys != [] {
      var restX := if |xs| == 1 then [] else [separator] + Join(xs[1..], separator);
      var restY := if |ys| == 1 then [] else [separator] + Join(ys[1..], separator);
      assert Join(xs, separator) == xs[0] + restX && Join(ys, separator) == ys[0] + restY;
      FirstPartEnds(xs[0], ys[0], restX, restY, separator);
      if |xs| > 1 {
        assert restX[1..] == Join(xs[1..], separator) && restY[1..] == Join(ys[1..], separator);
        JoinInjective(xs[1..], ys[1..], separator);
      }
      assert xs == [xs[0]] + xs[1..] && ys == [ys[0]] + ys[1..];
    }
  }

  // ---- Hexadecimal text -------------------------------------------------------------------

  const SHA := "sha256:"

  predicate IsHexDigit(c: char) {
    '0' <= c <= '9' || 'A' <= c <= 'F' || 'a' <= c <= 'f'
  }

  /** The prefix followed by sixty-four lower-case hexadecimal digits. */
  predicate IsDigest(s: string, prefix: string) {
    && |s| == |prefix| + 64 && prefix <= s
    && forall i | |prefix| <= i < |s| :: '0' <= s[i] <= '9' || 'a' <= s[i] <= 'f'
  }
}
