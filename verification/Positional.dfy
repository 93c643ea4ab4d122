/** Numbers as big-endian digit strings in any base. */
module Positional {

  function Quotient(x: nat, d: nat): (q: nat)
    requires d >= 2
    ensures q <= x && (x > 0 ==> q < x)
  {
    QuotientSmaller(x, d);
    x / d
  }

  function Remainder(x: nat, d: nat): (r: nat)
    requires d >= 2
    ensures r < d
  {
    x % d
  }

  lemma QuotientSmaller(x: nat, d: nat)
    requires d >= 2
    ensures 0 <= x / d <= x && (x > 0 ==> x / d < x)
  {
    var q, r := x / d, x % d;
    assert x == q * d + r && r >= 0;
    assert q >= 0;
    assert q * d >= q * 2;
  }

  lemma DivMod(x: nat, d: nat)
    requires d >= 2
    ensures Quotient(x, d) * d + Remainder(x, d) == x
  {
  }

  lemma DivUnique(q: nat, r: nat, d: nat)
    requires d >= 2 && r < d
    ensures Quotient(q * d + r, d) == q && Remainder(q * d + r, d) == r
  {
    var x := q * d + r;
    var q', r' := x / d, x % d;
    assert (q - q') * d == r' - r;
    Smaller(q - q', d);
    Smaller(q' - q, d);
  }

  lemma Smaller(k: int, d: nat)
    requires d > 0
    ensures k >= 1 ==> k * d >= d
  {
  }

  ghost predicate DigitsIn(s: seq<nat>, base: nat) {
    forall i | 0 <= i < |s| :: s[i] < base
  }

  /** The number `s` spells. */
  function Value(s: seq<nat>, base: nat): nat {
    if s == [] then 0 else Value(s[..|s| - 1], base) * base + s[|s| - 1]
  }

  /** The digits of `v` without leading zeros. */
  function MinDigits(v: nat, base: nat): seq<nat>
    requires base >= 2
  {
    if v == 0 then [] else MinDigits(Quotient(v, base), base) + [Remainder(v, base)]
  }

  ghost predicate Minimal(s: seq<nat>) {
    s == [] || s[0] != 0
  }

  lemma {:induction false} MinDigitsSpell(v: nat, base: nat)
    requires base >= 2
    ensures Value(MinDigits(v, base), base) == v && DigitsIn(MinDigits(v, base), base)
    ensures Minimal(MinDigits(v, base))
  {
    hide Quotient, Remainder;
    if v == 0 {
    } else {
      DivMod(v, base);
      MinDigitsSpell(Quotient(v, base), base);
      assert MinDigits(v, base)[..|MinDigits(v, base)| - 1] == MinDigits(Quotient(v, base), base);
    }
  }

  lemma {:induction false} ValueZero(s: seq<nat>, base: nat)
    requires base >= 2 && Minimal(s)
    ensures Value(s, base) == 0 ==> s == []
  {
    if |s| <= 1 {
      if s != [] { assert s[..|s| - 1] == []; }
    } else {
      ValueZero(s[..|s| - 1], base);
      Smaller(Value(s[..|s| - 1], base), base);
    }
  }

  /** A digit string without leading zeros is the one `MinDigits` finds. */
  lemma {:induction false} MinDigitsUnique(s: seq<nat>, base: nat)
    requires base >= 2 && DigitsIn(s, base) && Minimal(s)
    ensures MinDigits(Value(s, base), base) == s
  {
    hide Quotient, Remainder;
    if s == [] {
    } else {
      ValueZero(s, base);
      var n := |s| - 1;
      DivUnique(Value(s[..n], base), s[n], base);
      MinDigitsUnique(s[..n], base);
    }
  }

  function Zeros(n: nat): (r: seq<nat>)
    ensures |r| == n && forall i | 0 <= i < n :: r[i] == 0
  {
    seq(n, _ => 0)
  }

  /** Leading zeros do not count. */
  lemma {:induction false} LeadingZeros(n: nat, s: seq<nat>, base: nat)
    ensures Value(Zeros(n) + s, base) == Value(s, base)
  {
    if s == [] {
      if n > 0 {
        LeadingZeros(n - 1, s, base);
        assert (Zeros(n) + s)[..n - 1] == Zeros(n - 1) + s;
      }
    } else {
      var m := |s| - 1;
      LeadingZeros(n, s[..m], base);
      assert (Zeros(n) + s)[..n + m] == Zeros(n) + s[..m];
    }
  }

  function Power(base: nat, n: nat): nat {
    if n == 0 then 1 else Power(base, n - 1) * base
  }

  lemma {:induction false} ValueBound(s: seq<nat>, base: nat)
    requires base >= 2 && DigitsIn(s, base)
    ensures Value(s, base) < Power(base, |s|)
  {
    if s == [] {
    } else {
      var n := |s| - 1;
      ValueBound(s[..n], base);
      BelowNext(Value(s[..n], base), Power(base, n), s[n], base);
    }
  }

  lemma BelowNext(v: nat, p: nat, r: nat, base: nat)
    requires v < p && r < base
    ensures v * base + r < p * base
  {
    assert (v + 1) * base <= p * base;
  }

  lemma Distribute(d: nat, p: nat, v: nat, base: nat, last: nat)
    ensures (d * p + v) * base + last == d * (p * base) + (v * base + last)
  {
  }

  lemma ValueStep(s: seq<nat>, base: nat)
    requires s != []
    ensures Value(s, base) == Value(s[..|s| - 1], base) * base + s[|s| - 1]
    ensures Power(base, |s|) == Power(base, |s| - 1) * base
  {
  }

  lemma DigitAlone(d: nat, base: nat)
    ensures Value([d], base) == d && Value([], base) == 0 && d * Power(base, 0) == d
  {
    assert [d][..0] == [];
  }

  /** A new leading digit weighs the base to the length. */
  lemma {:induction false} LeadingDigit(d: nat, s: seq<nat>, base: nat)
    ensures Value([d] + s, base) == d * Power(base, |s|) + Value(s, base)
  {
    hide Value, Power;
    if s == [] {
      DigitAlone(d, base);
      assert [d] + s == [d];
    } else {
      var n := |s| - 1;
      LeadingDigit(d, s[..n], base);
      ValueStep([d] + s, base);
      ValueStep(s, base);
      assert ([d] + s)[..|s|] == [d] + s[..n];
      Distribute(d, Power(base, n), Value(s[..n], base), base, s[n]);
    }
  }

  lemma {:induction false} PowerMonotone(base: nat, m: nat, n: nat)
    requires base >= 1 && m <= n
    ensures Power(base, m) <= Power(base, n)
  {
    if m < n {
      PowerMonotone(base, m, n - 1);
      assert Power(base, n - 1) * base >= Power(base, n - 1);
    }
  }

  lemma {:induction false} PowerTimes(base: nat, m: nat, n: nat)
    ensures Power(base, m + n) == Power(base, m) * Power(base, n)
    decreases n
  {
    hide Power;
    PowerStep(base, 0);
    if n > 0 {
      PowerTimes(base, m, n - 1);
      PowerStep(base, m + n - 1);
      PowerStep(base, n - 1);
      Regrouped(Power(base, m), Power(base, n - 1), base);
    }
  }

  lemma PowerStep(base: nat, n: nat)
    ensures Power(base, 0) == 1 && Power(base, n + 1) == Power(base, n) * base
  {
  }

  lemma Regrouped(a: nat, b: nat, c: nat)
    ensures (a * b) * c == a * (b * c)
  {
  }
}
