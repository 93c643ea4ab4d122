/** The divider search of main/asic_pll.c in exact arithmetic. */
module Pll {
  import opened Basics

  const FREQ_MULT: real := 25.0
  const EPSILON: real := 0.0001
  const FLT_MAX: real := 340282346638528859811704183484516925440.0
  const UINT16_MAX: nat := 65535

  /** One point of the grid. */
  datatype Setting = Setting(refdiv: nat, post1: nat, post2: nat, fb: nat)

  predicate InGrid(s: Setting, fbMin: nat, fbMax: nat) {
    1 <= s.refdiv <= 2 && 1 <= s.post2 < s.post1 <= 7 && fbMin <= s.fb <= fbMax
  }

  predicate Dividers(s: Setting) {
    1 <= s.refdiv <= 2 && 1 <= s.post2 < s.post1 <= 7
  }

  function Post(s: Setting): nat {
    s.post1 * s.post2
  }

  function Divider(s: Setting): nat {
    s.refdiv * Post(s)
  }

  function Ratio(x: real, y: real): real
    requires y != 0.0
  {
    x / y
  }

  lemma DividerPositive(s: Setting)
    requires Dividers(s)
    ensures Divider(s) > 0 && Post(s) > 0 && Post(s) <= 42
  {
    assert s.post1 * s.post2 >= s.post1 * 1;
    assert s.post1 * s.post2 <= 7 * s.post2;
  }

  function Freq(s: Setting): real
    requires Dividers(s)
  {
    DividerPositive(s);
    Ratio(FREQ_MULT * s.fb as real, Divider(s) as real)
  }

  function Vco(s: Setting): real
    requires Dividers(s)
  {
    Ratio(FREQ_MULT * s.fb as real, s.refdiv as real)
  }

  function Error(target: real, s: Setting): real
    requires Dividers(s)
  {
    Abs(target - Freq(s))
  }

  // ----- every error is a whole number of 5040ths

  lemma PostDivides(p1: nat, p2: nat)
    requires 1 <= p2 < p1 <= 7
    ensures 2520 % (p1 * p2) == 0
  {
    if p1 == 2 {
      assert p2 == 1;
    } else if p1 == 3 {
      assert p2 == 1 || p2 == 2;
    } else if p1 == 4 {
      assert p2 == 1 || p2 == 2 || p2 == 3;
    } else if p1 == 5 {
      assert p2 == 1 || p2 == 2 || p2 == 3 || p2 == 4;
    } else if p1 == 6 {
      assert p2 == 1 || p2 == 2 || p2 == 3 || p2 == 4 || p2 == 5;
    } else {
      assert p1 == 7;
      assert p2 == 1 || p2 == 2 || p2 == 3 || p2 == 4 || p2 == 5 || p2 == 6;
    }
  }

  /** How many times the divider goes into 5040. */
  function Cofactor(s: Setting): nat
    requires Dividers(s)
  {
    DividerPositive(s);
    (2520 / Post(s)) * (2 / s.refdiv)
  }

  lemma CofactorDivides(s: Setting)
    requires Dividers(s)
    ensures Cofactor(s) * Divider(s) == 5040
  {
    DividerPositive(s);
    PostDivides(s.post1, s.post2);
    var q := 2520 / Post(s);
    assert q * Post(s) == 2520;
    if s.refdiv == 1 {
      assert Cofactor(s) == q * 2 && Divider(s) == Post(s);
      assert q * 2 * Post(s) == 2 * (q * Post(s));
    } else {
      assert Cofactor(s) == q && Divider(s) == 2 * Post(s);
      assert q * (2 * Post(s)) == 2 * (q * Post(s));
    }
  }

  function AbsInt(x: int): nat {
    if x < 0 then -x else x
  }

  /** The error in 5040ths for a target of `sixteenths` / 16 MHz. */
  function Error5040(sixteenths: int, s: Setting): nat
    requires Dividers(s)
  {
    AbsInt(315 * sixteenths - 25 * s.fb * Cofactor(s))
  }

  lemma RatioTimes(x: real, d: real, m: real)
    requires d != 0.0
    ensures Ratio(x, d) * (m * d) == x * m
  {
    var q := x / d;
    assert q * d == x;
    assert q * (m * d) == (q * d) * m;
  }

  lemma IntProduct(a: nat, b: nat)
    ensures (a * b) as real == (a as real) * (b as real)
  {
  }

  lemma Freq5040(s: Setting)
    requires Dividers(s)
    ensures Freq(s) * 5040.0 == (25 * s.fb * Cofactor(s)) as real
  {
    DividerPositive(s);
    CofactorDivides(s);
    hide Ratio, Cofactor, Divider, Dividers;
    var d, m := Divider(s), Cofactor(s);
    RatioTimes(FREQ_MULT * s.fb as real, d as real, m as real);
    IntProduct(m, d);
    IntProduct(25 * s.fb, m);
  }

  function Target(sixteenths: int): real {
    sixteenths as real / 16.0
  }

  lemma ErrorIs(sixteenths: int, s: Setting)
    requires Dividers(s)
    ensures Error(Target(sixteenths), s) * 5040.0 == Error5040(sixteenths, s) as real
  {
    Freq5040(s);
    hide Freq, Cofactor, Dividers;
    assert Target(sixteenths) * 5040.0 == (315 * sixteenths) as real;
  }

  /** Twice the VCO frequency, a whole number. */
  function Vco2(s: Setting): nat
    requires Dividers(s)
  {
    25 * s.fb * (if s.refdiv == 1 then 2 else 1)
  }

  lemma VcoIs(s: Setting)
    requires Dividers(s)
    ensures Vco(s) * 2.0 == Vco2(s) as real
  {
    if s.refdiv == 1 {
      RatioTimes(FREQ_MULT * s.fb as real, 1.0, 2.0);
    } else {
      RatioTimes(FREQ_MULT * s.fb as real, 2.0, 1.0);
    }
    hide Ratio;
  }

  // ----- the order of the search

  /** Nearer first, then the slower VCO, then the smaller post-divider product. */
  predicate Before(sixteenths: int, s: Setting, t: Setting)
    requires Dividers(s) && Dividers(t)
  {
    || Error5040(sixteenths, s) < Error5040(sixteenths, t)
    || (Error5040(sixteenths, s) == Error5040(sixteenths, t) && Vco2(s) < Vco2(t))
    || (Error5040(sixteenths, s) == Error5040(sixteenths, t) && Vco2(s) == Vco2(t) && Post(s) < Post(t))
  }

  lemma BeforeTransitive(n: int, s: Setting, t: Setting, u: Setting)
    requires Dividers(s) && Dividers(t) && Dividers(u)
    requires Before(n, s, t) && !Before(n, u, t)
    ensures !Before(n, u, s)
  {
    hide Error5040, Vco2, Post, Dividers;
  }

  /** What the search remembers; the three minima start at the largest values. */
  datatype Best = Best(minDiff: real, minVco: real, minPostdiv: nat, freq: real, found: Setting)

  const NOTHING: Best := Best(FLT_MAX, FLT_MAX, UINT16_MAX, 0.0, Setting(0, 0, 0, 0))

  /** The test in the innermost loop. */
  predicate Better(target: real, s: Setting, best: Best)
    requires Dividers(s)
  {
    var diff, vco := Error(target, s), Vco(s);
    var equalFrequency := Abs(diff - best.minDiff) < EPSILON;
    || diff < best.minDiff
    || (equalFrequency && vco < best.minVco)
    || (equalFrequency && Abs(vco - best.minVco) < EPSILON && Post(s) < best.minPostdiv)
  }

  function BestOf(target: real, s: Setting): Best
    requires Dividers(s)
  {
    Best(Error(target, s), Vco(s), Post(s), Freq(s), s)
  }

  lemma ErrorsApart(x: real, y: real, i: int, j: int)
    requires x * 5040.0 == i as real && y * 5040.0 == j as real
    ensures x < y <==> i < j
    ensures Abs(x - y) < EPSILON <==> i == j
  {
  }

  lemma VcosApart(x: real, y: real, i: int, j: int)
    requires x * 2.0 == i as real && y * 2.0 == j as real
    ensures x < y <==> i < j
    ensures Abs(x - y) < EPSILON <==> i == j
  {
  }

  /** EPSILON TIES ARE EXACT TIES: the float test with its epsilon is the exact order. */
  lemma BetterIsBefore(n: int, s: Setting, t: Setting)
    requires Dividers(s) && Dividers(t)
    ensures Better(Target(n), s, BestOf(Target(n), t)) <==> Before(n, s, t)
  {
    ErrorIs(n, s);
    ErrorIs(n, t);
    VcoIs(s);
    VcoIs(t);
    ErrorsApart(Error(Target(n), s), Error(Target(n), t), Error5040(n, s), Error5040(n, t));
    VcosApart(Vco(s), Vco(t), Vco2(s), Vco2(t));
    hide Error, Vco, Error5040, Vco2, Post, Abs, Target, Dividers;
  }

  // ----- the search

  /** What the search over a range may settle on. */
  ghost predicate Settles(n: int, fbMin: nat, fbMax: nat, s: Setting) {
    InGrid(s, fbMin, fbMax) && forall t :: InGrid(t, fbMin, fbMax) ==> !Before(n, t, s)
  }

  /** The settings looked at before the cursor. */
  predicate Seen(s: Setting, refdiv: int, post1: int, post2: int, fb: int) {
    || s.refdiv > refdiv
    || (s.refdiv == refdiv && (
      || s.post1 > post1
      || (s.post1 == post1 && (
        || s.post2 > post2
        || (s.post2 == post2 && s.fb < fb)))))
  }

  /** `best` is the first among the settings seen so far. */
  ghost predicate BestSeen(n: int, fbMin: nat, fbMax: nat, best: Best, refdiv: int, post1: int, post2: int, fb: int) {
    && (best == NOTHING ==> forall s :: InGrid(s, fbMin, fbMax) ==> !Seen(s, refdiv, post1, post2, fb))
    && (best != NOTHING ==>
          && InGrid(best.found, fbMin, fbMax) && best == BestOf(Target(n), best.found)
          && forall s :: InGrid(s, fbMin, fbMax) && Seen(s, refdiv, post1, post2, fb) ==> !Before(n, s, best.found))
  }

  predicate InRange(n: int, fbMax: nat) {
    Abs(Target(n)) + FREQ_MULT * fbMax as real < FLT_MAX
  }

  lemma FirstIsBetter(n: int, fbMin: nat, fbMax: nat, s: Setting)
    requires InGrid(s, fbMin, fbMax) && InRange(n, fbMax)
    ensures Better(Target(n), s, NOTHING)
  {
    DividerPositive(s);
    RatioAtMost(FREQ_MULT * s.fb as real, Divider(s) as real);
    hide Ratio, Divider, Target, Vco, Dividers;
    assert 0.0 <= Freq(s) <= FREQ_MULT * fbMax as real;
  }

  lemma RatioAtMost(x: real, d: real)
    requires x >= 0.0 && d >= 1.0
    ensures 0.0 <= Ratio(x, d) <= x
  {
    var q := x / d;
    assert q * d == x;
    assert q < 0.0 ==> q * d < 0.0;
    assert q * d >= q;
  }

  /** One turn of the innermost loop. */
  lemma Turn(n: int, fbMin: nat, fbMax: nat, best: Best, s: Setting)
    requires InGrid(s, fbMin, fbMax) && InRange(n, fbMax)
    requires BestSeen(n, fbMin, fbMax, best, s.refdiv, s.post1, s.post2, s.fb)
    ensures BestSeen(n, fbMin, fbMax, if Better(Target(n), s, best) then BestOf(Target(n), s) else best,
                     s.refdiv, s.post1, s.post2, s.fb + 1)
  {
    hide Better, Before, Target, InRange;
    if best == NOTHING {
      FirstIsBetter(n, fbMin, fbMax, s);
    } else {
      BetterIsBefore(n, s, best.found);
      forall t | InGrid(t, fbMin, fbMax) && Seen(t, s.refdiv, s.post1, s.post2, s.fb) && Before(n, s, best.found)
        ensures !Before(n, t, s)
      {
        BeforeTransitive(n, s, best.found, t);
      }
    }
    NotBeforeItself(n, s);
  }

  lemma NotBeforeItself(n: int, s: Setting)
    requires Dividers(s)
    ensures !Before(n, s, s)
  {
  }

  /** The innermost loop, over one choice of the three small dividers. */
  method SearchFeedback(n: int, fbMin: nat, fbMax: nat, refdiv: nat, post1: nat, post2: nat, start: Best)
    returns (best: Best)
    requires fbMax < UINT16_MAX && InRange(n, fbMax)
    requires 1 <= refdiv <= 2 && 1 <= post2 < post1 <= 7
    requires BestSeen(n, fbMin, fbMax, start, refdiv, post1, post2, fbMin)
    ensures BestSeen(n, fbMin, fbMax, best, refdiv, post1, post2 - 1, fbMin)
  {
    best := start;
    var fb := fbMin;
    while fb <= fbMax
      invariant fbMin <= fb
      invariant BestSeen(n, fbMin, fbMax, best, refdiv, post1, post2, fb)
    {
      var s := Setting(refdiv, post1, post2, fb);
      Turn(n, fbMin, fbMax, best, s);
      if Better(Target(n), s, best) {
        best := BestOf(Target(n), s);
      }
      fb := fb + 1;
    }
    NextRow(n, fbMin, fbMax, best, refdiv, post1, post2, fb);
  }

  /** A row that ran out is a row that is seen. */
  lemma NextRow(n: int, fbMin: nat, fbMax: nat, best: Best, refdiv: int, post1: int, post2: int, fb: int)
    requires fb > fbMax && BestSeen(n, fbMin, fbMax, best, refdiv, post1, post2, fb)
    ensures BestSeen(n, fbMin, fbMax, best, refdiv, post1, post2 - 1, fbMin)
  {
    hide Before, BestOf;
    assert forall s :: InGrid(s, fbMin, fbMax) && Seen(s, refdiv, post1, post2 - 1, fbMin)
             ==> Seen(s, refdiv, post1, post2, fb);
  }

  /** A post-divider pair that is skipped, or ran out, hides nothing. */
  lemma Skip(n: int, fbMin: nat, fbMax: nat, best: Best, refdiv: int, post1: int, post2: int)
    requires post1 <= post2
    requires BestSeen(n, fbMin, fbMax, best, refdiv, post1, post2, fbMin)
    ensures BestSeen(n, fbMin, fbMax, best, refdiv, post1, post2 - 1, fbMin)
  {
    hide Before, BestOf;
    assert forall s :: InGrid(s, fbMin, fbMax) && Seen(s, refdiv, post1, post2 - 1, fbMin)
             ==> Seen(s, refdiv, post1, post2, fbMin);
  }

  lemma NextPost1(n: int, fbMin: nat, fbMax: nat, best: Best, refdiv: int, post1: int)
    requires BestSeen(n, fbMin, fbMax, best, refdiv, post1, 0, fbMin)
    ensures BestSeen(n, fbMin, fbMax, best, refdiv, post1 - 1, 7, fbMin)
  {
    hide Before, BestOf;
    assert forall s :: InGrid(s, fbMin, fbMax) && Seen(s, refdiv, post1 - 1, 7, fbMin)
             ==> Seen(s, refdiv, post1, 0, fbMin);
  }

  lemma NextRefdiv(n: int, fbMin: nat, fbMax: nat, best: Best, refdiv: int)
    requires BestSeen(n, fbMin, fbMax, best, refdiv, 0, 7, fbMin)
    ensures BestSeen(n, fbMin, fbMax, best, refdiv - 1, 7, 7, fbMin)
  {
    hide Before, BestOf;
    assert forall s :: InGrid(s, fbMin, fbMax) && Seen(s, refdiv - 1, 7, 7, fbMin) ==> Seen(s, refdiv, 0, 7, fbMin);
  }

  /** A FREQUENCY THE DIVIDERS CAN GIVE IS GIVEN: a target that some choice of reference divider 1 or 2,
      post dividers 1 to 7, the second below the first, and a feedback divider of the range meets is
      met, and with no faster VCO than by that choice. */
  lemma ExactIsFound(n: int, fbMin: nat, fbMax: nat, s: Setting, t: Setting)
    requires 0 < s.refdiv <= 2 && 0 < s.post2 < s.post1 < 8 && fbMin <= s.fb <= fbMax
    requires Settles(n, fbMin, fbMax, t) && Freq(s) == Target(n)
    ensures Freq(t) == Target(n) && Vco(t) <= Vco(s)
  {
    assert InGrid(s, fbMin, fbMax);
    ErrorIs(n, s);
    ErrorIs(n, t);
    VcoIs(s);
    VcoIs(t);
    ZeroError(Target(n), Freq(s));
    ZeroError(Target(n), Freq(t));
    hide Freq, Vco, Error5040, Vco2, Post, Target;
    assert !Before(n, s, t);
    assert Error5040(n, s) == 0;
  }

  lemma ZeroError(x: real, y: real)
    ensures Abs(x - y) * 5040.0 == 0.0 <==> x == y
    ensures Abs(x - y) * 5040.0 >= 0.0
  {
  }

  /** The registers that are handed out: the feedback divider is narrowed to 8 bits. */
  datatype Registers = Registers(fb: nat, refdiv: nat, post1: nat, post2: nat, freq: real)

  function Narrowed(best: Best): Registers {
    Registers(best.found.fb % 256, best.found.refdiv, best.found.post1, best.found.post2, best.freq)
  }

  /** `pll_get_parameters`: the result is the least of the whole grid by frequency error, VCO
      frequency and post-divider product, and all zero only for an empty grid. `best` is what the
      search settled on, before the narrowing. */
  method GetParameters(n: int, fbMin: nat, fbMax: nat) returns (r: Registers, best: Best)
    requires fbMax < UINT16_MAX && InRange(n, fbMax)
    ensures r == Narrowed(best)
    ensures best == NOTHING <==> fbMin > fbMax
    ensures fbMin <= fbMax ==> Settles(n, fbMin, fbMax, best.found) && best == BestOf(Target(n), best.found)
  {
    hide Before, BestSeen, InRange;
    var kept := NOTHING;
    NothingSeen(n, fbMin, fbMax);
    var refdiv := 2;
    while refdiv > 0
      invariant 0 <= refdiv <= 2
      invariant BestSeen(n, fbMin, fbMax, kept, refdiv, 7, 7, fbMin)
    {
      var post1 := 7;
      while post1 > 0
        invariant 0 <= post1 <= 7
        invariant BestSeen(n, fbMin, fbMax, kept, refdiv, post1, 7, fbMin)
      {
        var post2 := 7;
        while post2 > 0
          invariant 0 <= post2 <= 7
          invariant BestSeen(n, fbMin, fbMax, kept, refdiv, post1, post2, fbMin)
        {
          if post1 <= post2 {
            Skip(n, fbMin, fbMax, kept, refdiv, post1, post2);
          } else {
            kept := SearchFeedback(n, fbMin, fbMax, refdiv, post1, post2, kept);
          }
          post2 := post2 - 1;
        }
        NextPost1(n, fbMin, fbMax, kept, refdiv, post1);
        post1 := post1 - 1;
      }
      NextRefdiv(n, fbMin, fbMax, kept, refdiv);
      refdiv := refdiv - 1;
    }
    AllSeen(n, fbMin, fbMax, kept);
    best := kept;
    r := Narrowed(kept);
  }

  lemma NothingSeen(n: int, fbMin: nat, fbMax: nat)
    ensures BestSeen(n, fbMin, fbMax, NOTHING, 2, 7, 7, fbMin)
  {
  }

  lemma AllSeen(n: int, fbMin: nat, fbMax: nat, best: Best)
    requires BestSeen(n, fbMin, fbMax, best, 0, 7, 7, fbMin)
    ensures best == NOTHING <==> fbMin > fbMax
    ensures fbMin <= fbMax ==> Settles(n, fbMin, fbMax, best.found) && best == BestOf(Target(n), best.found)
  {
    hide Before, BestOf;
    if fbMin <= fbMax {
      var s := Setting(1, 2, 1, fbMin);
      assert InGrid(s, fbMin, fbMax) && Seen(s, 0, 7, 7, fbMin);
    }
  }

  /** Whether the registers describe the reported frequency. */
  predicate Agrees(r: Registers)
    requires Dividers(Setting(r.refdiv, r.post1, r.post2, r.fb))
  {
    r.freq == Freq(Setting(r.refdiv, r.post1, r.post2, r.fb))
  }

  /** They do exactly when the feedback divider found fits 8 bits. */
  lemma RegistersAgreeIff(target: real, s: Setting)
    requires Dividers(s)
    ensures Agrees(Narrowed(BestOf(target, s))) <==> s.fb < 256
  {
    DividerPositive(s);
    var t := s.(fb := s.fb % 256);
    FreqIs(s);
    FreqIs(t);
    NarrowIff(s.fb);
    hide Freq, Ratio, Divider;
    RatioInjective(FREQ_MULT * s.fb as real, FREQ_MULT * t.fb as real, Divider(s) as real);
  }

  lemma CofactorBelow(s: Setting)
    requires Dividers(s)
    ensures Cofactor(s) <= 2520
    ensures Cofactor(s) == 2520 <==> s.refdiv == 1 && s.post1 == 2 && s.post2 == 1
  {
    DividerPositive(s);
    CofactorDivides(s);
    if s.refdiv == 1 && s.post1 == 2 {
    } else {
      assert Post(s) >= 2 && (s.post1 > 2 ==> Post(s) >= 3) by { PostAtLeast(s); }
      assert Divider(s) >= 3;
      ProductAtLeast(Cofactor(s), Divider(s));
    }
  }

  lemma PostAtLeast(s: Setting)
    requires Dividers(s)
    ensures Post(s) >= s.post1
  {
  }

  lemma ProductAtLeast(c: nat, d: nat)
    requires d >= 3
    ensures c * d >= 3 * c
  {
  }

  /** Only the top of the range meets 12.5 MHz times its feedback divider. */
  lemma TopIsExact(fbMin: nat, fbMax: nat, s: Setting)
    requires InGrid(s, fbMin, fbMax) && fbMax > 0
    ensures Error5040(200 * fbMax, s) == 0 <==> s == Setting(1, 2, 1, fbMax)
  {
    CofactorBelow(s);
    hide Cofactor;
    SmallerProduct(s.fb, Cofactor(s), fbMax, 2520);
    assert 25 * s.fb * Cofactor(s) == 25 * (s.fb * Cofactor(s));
  }

  lemma SmallerProduct(a: nat, b: nat, c: nat, d: nat)
    requires a <= c && b <= d && c > 0 && d > 0
    ensures a * b == c * d <==> a == c && b == d
  {
    if a == c && b == d {
    } else if b == d {
      assert a * d <= (c - 1) * d == c * d - d;
    } else {
      assert a * b <= c * b <= c * (d - 1) == c * d - c;
    }
  }

  /** For that target the search settles on the top of the range and nothing else. */
  lemma TopSettles(fbMin: nat, fbMax: nat, s: Setting)
    requires 0 < fbMax && fbMin <= fbMax
    ensures Settles(200 * fbMax, fbMin, fbMax, s) <==> s == Setting(1, 2, 1, fbMax)
  {
    var n, top := 200 * fbMax, Setting(1, 2, 1, fbMax);
    TopIsExact(fbMin, fbMax, top);
    hide Error5040, Vco2, Post;
    if s == top {
      forall t | InGrid(t, fbMin, fbMax) ensures !Before(n, t, top) {
        TopIsExact(fbMin, fbMax, t);
        NotBeforeItself(n, top);
      }
    } else if InGrid(s, fbMin, fbMax) {
      TopIsExact(fbMin, fbMax, s);
      assert Before(n, top, s);
    }
  }

  /** WHICH RANGES ARE SAFE: the registers describe the reported frequency for every target exactly
      when the range ends below 256. */
  lemma RangeAgreesIff(fbMin: nat, fbMax: nat)
    requires fbMin <= fbMax < UINT16_MAX
    ensures (forall n, s | InRange(n, fbMax) && Settles(n, fbMin, fbMax, s) :: Agrees(Narrowed(BestOf(Target(n), s))))
            <==> fbMax < 256
  {
    hide Agrees, Before, Error, Vco, Freq;
    forall n, s | InRange(n, fbMax) && Settles(n, fbMin, fbMax, s)
      ensures Agrees(Narrowed(BestOf(Target(n), s))) <==> s.fb < 256
    {
      RegistersAgreeIff(Target(n), s);
    }
    if fbMax >= 256 {
      var n, top := 200 * fbMax, Setting(1, 2, 1, fbMax);
      TopSettles(fbMin, fbMax, top);
      assert InRange(n, fbMax) && Settles(n, fbMin, fbMax, top);
      RegistersAgreeIff(Target(n), top);
    }
  }

  lemma NarrowIff(fb: nat)
    ensures FREQ_MULT * fb as real == FREQ_MULT * (fb % 256) as real <==> fb < 256
  {
  }

  lemma FreqIs(s: Setting)
    requires Dividers(s)
    ensures Divider(s) > 0 && Freq(s) == Ratio(FREQ_MULT * s.fb as real, Divider(s) as real)
    ensures Divider(s.(fb := s.fb % 256)) == Divider(s)
  {
    DividerPositive(s);
    hide Ratio;
  }

  lemma RatioInjective(x: real, y: real, d: real)
    requires d > 0.0
    ensures Ratio(x, d) == Ratio(y, d) <==> x == y
  {
    RatioTimes(x, d, 1.0);
    RatioTimes(y, d, 1.0);
    hide Ratio;
  }

  /** A range that starts at 256: whatever the target, the registers name feedback divider 0, a
      stopped clock, while the frequency reported is another. */
  method SearchAt256(n: int) returns (r: Registers)
    requires InRange(n, 256)
    ensures Dividers(Setting(r.refdiv, r.post1, r.post2, r.fb))
    ensures r.fb == 0 && !Agrees(r)
    ensures Freq(Setting(r.refdiv, r.post1, r.post2, r.fb)) == 0.0
  {
    var best;
    r, best := GetParameters(n, 256, 256);
    RegistersAgreeIff(Target(n), best.found);
  }
}
