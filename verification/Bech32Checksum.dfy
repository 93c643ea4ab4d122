/** The Bech32 checksum of main/stratum_payout.c as a map on 30-bit states: what section
    "Bech32" of BIP 173 promises of it, for symbol sequences of any length. */
module Bech32Checksum {

  // ----- one step

  /** Bit 25 + `i` of a 30-bit state. */
  predicate On(c: bv32, i: nat)
    requires i < 5
  {
    if i == 0 then c & 0x0200_0000 != 0
    else if i == 1 then c & 0x0400_0000 != 0
    else if i == 2 then c & 0x0800_0000 != 0
    else if i == 3 then c & 0x1000_0000 != 0
    else c & 0x2000_0000 != 0
  }

  function Generator(i: nat): bv32
    requires i < 5
  {
    if i == 0 then 0x3b6a_57b2
    else if i == 1 then 0x2650_8e6d
    else if i == 2 then 0x1ea1_19fa
    else if i == 3 then 0x3d42_33dd
    else 0x2a14_62b3
  }

  /** Addition of states. */
  function Add(a: bv32, b: bv32): bv32 {
    a ^ b
  }

  function Low(a: bv32): bv32 {
    a & 31
  }

  function Tap(r: bv32, on: bool, g: bv32): bv32 {
    if on then Add(r, g) else r
  }

  /** The sum of those of the first `n` generators whose bit is set in the top of `c`. */
  function Taps(c: bv32, n: nat): bv32
    requires n <= 5
  {
    if n == 0 then 0 else Tap(Taps(c, n - 1), On(c, n - 1), Generator(n - 1))
  }

  function Feedback(c: bv32): bv32 {
    Taps(c, 5)
  }

  function Shifted(c: bv32): bv32 {
    (c & 0x1ff_ffff) << 5
  }

  /** `payout_bech32_polymod_step`: the shifted state, the symbol and the feedback, added. */
  function Step(c: bv32, v: bv32): bv32 {
    Add(Add(Shifted(c), v), Feedback(c))
  }

  lemma TapsStep(c: bv32, n: nat)
    requires n < 5
    ensures Taps(c, n + 1) == Tap(Taps(c, n), On(c, n), Generator(n))
  {
  }

  lemma AddAssociative(a: bv32, b: bv32, c: bv32)
    ensures Add(Add(a, b), c) == Add(a, Add(b, c))
    ensures Add(a, 0) == a
  {
  }

  /** The loop's test of bit `i`. */
  predicate Selected(top: bv32, i: nat)
    requires i < 5
  {
    (top >> i) & 1 != 0
  }

  /** The step as the source's loop over the five generators. */
  method PolymodStep(chk: bv32, value: bv32) returns (r: bv32)
    ensures r == Step(chk, value)
  {
    hide Add, Shifted, Taps, On, Generator, Selected, Feedback;
    var top := chk >> 25;
    r := Add(Shifted(chk), value);
    ghost var base := r;
    AddAssociative(base, 0, 0);
    TapsZero(chk);
    for i := 0 to 5
      invariant r == Add(base, Taps(chk, i))
    {
      SameBit(chk, i);
      TapsStep(chk, i);
      AddAssociative(base, Taps(chk, i), Generator(i));
      if Selected(top, i) {
        r := Add(r, Generator(i));
      }
    }
    FeedbackIsTaps(chk);
  }

  lemma FeedbackIsTaps(c: bv32)
    ensures Feedback(c) == Taps(c, 5)
  {
  }

  lemma TapsZero(c: bv32)
    ensures Taps(c, 0) == 0
  {
  }

  lemma SameBits(c: bv32)
    ensures ((c >> 25) >> 0) & 1 != 0 <==> On(c, 0)
    ensures ((c >> 25) >> 1) & 1 != 0 <==> On(c, 1)
    ensures ((c >> 25) >> 2) & 1 != 0 <==> On(c, 2)
    ensures ((c >> 25) >> 3) & 1 != 0 <==> On(c, 3)
    ensures ((c >> 25) >> 4) & 1 != 0 <==> On(c, 4)
  {
  }

  lemma SameBit(c: bv32, i: nat)
    requires i < 5
    ensures Selected(c >> 25, i) <==> On(c, i)
  {
    hide On;
    SameBits(c);
    if i == 0 {
    } else if i == 1 {
    } else if i == 2 {
    } else if i == 3 {
    } else {
      assert i == 4;
    }
  }

  // ----- injectivity

  /** The feedback written out. */
  function Flat(b0: bool, b1: bool, b2: bool, b3: bool, b4: bool): bv32 {
    Tap(Tap(Tap(Tap(Tap(0, b0, 0x3b6a_57b2), b1, 0x2650_8e6d), b2, 0x1ea1_19fa), b3, 0x3d42_33dd), b4, 0x2a14_62b3)
  }

  lemma FeedbackIsFlat(c: bv32)
    ensures Feedback(c) == Flat(On(c, 0), On(c, 1), On(c, 2), On(c, 3), On(c, 4))
  {
    hide On, Tap, Taps;
    TapsZero(c);
    TapsStep(c, 0);
    TapsStep(c, 1);
    TapsStep(c, 2);
    TapsStep(c, 3);
    TapsStep(c, 4);
  }

  /** The low five bits of the generators are independent. */
  lemma FlatIndependent(a0: bool, a1: bool, a2: bool, a3: bool, a4: bool,
                        b0: bool, b1: bool, b2: bool, b3: bool, b4: bool)
    requires Low(Flat(a0, a1, a2, a3, a4)) == Low(Flat(b0, b1, b2, b3, b4))
    ensures a0 == b0 && a1 == b1 && a2 == b2 && a3 == b3 && a4 == b4
  {
  }

  ghost predicate SameTop(c: bv32, d: bv32) {
    && On(c, 0) == On(d, 0) && On(c, 1) == On(d, 1) && On(c, 2) == On(d, 2)
    && On(c, 3) == On(d, 3) && On(c, 4) == On(d, 4)
  }

  lemma FeedbackIndependent(c: bv32, d: bv32)
    requires Low(Feedback(c)) == Low(Feedback(d))
    ensures SameTop(c, d)
  {
    hide Flat, On, Feedback, Low;
    FeedbackIsFlat(c);
    FeedbackIsFlat(d);
    FlatIndependent(On(c, 0), On(c, 1), On(c, 2), On(c, 3), On(c, 4),
                    On(d, 0), On(d, 1), On(d, 2), On(d, 3), On(d, 4));
  }

  lemma SameTopSameFeedback(c: bv32, d: bv32)
    requires SameTop(c, d)
    ensures Feedback(c) == Feedback(d)
  {
    hide Flat, On, Feedback;
    FeedbackIsFlat(c);
    FeedbackIsFlat(d);
  }

  lemma LowBits(c: bv32, d: bv32, v: bv32, f: bv32, g: bv32)
    ensures Add(Add(Shifted(c), v), f) == Add(Add(Shifted(d), v), g) ==> Low(f) == Low(g)
    ensures Add(Add(Shifted(c), v), f) == Add(Add(Shifted(d), v), f) ==> Shifted(c) == Shifted(d)
  {
  }

  lemma BitsMakeState(c: bv32, d: bv32)
    requires c < 0x4000_0000 && d < 0x4000_0000 && Shifted(c) == Shifted(d) && SameTop(c, d)
    ensures c == d
  {
  }

  /** Different 30-bit states stay different under the same symbol. */
  lemma StepInjective(c: bv32, d: bv32, v: bv32)
    requires c < 0x4000_0000 && d < 0x4000_0000 && Step(c, v) == Step(d, v)
    ensures c == d
  {
    hide Feedback, SameTop, Shifted, Add, Low;
    LowBits(c, d, v, Feedback(c), Feedback(d));
    FeedbackIndependent(c, d);
    SameTopSameFeedback(c, d);
    BitsMakeState(c, d);
  }

  lemma StepRange(c: bv32, v: bv32)
    requires v < 32
    ensures Step(c, v) < 0x4000_0000
  {
    hide Feedback, Flat, On, Shifted, Add;
    FeedbackIsFlat(c);
    FlatRange(On(c, 0), On(c, 1), On(c, 2), On(c, 3), On(c, 4));
    ShiftedRange(c);
    AddRange(Shifted(c), v);
    AddRange(Add(Shifted(c), v), Feedback(c));
  }

  lemma FlatRange(b0: bool, b1: bool, b2: bool, b3: bool, b4: bool)
    ensures Flat(b0, b1, b2, b3, b4) < 0x4000_0000
  {
  }

  lemma ShiftedRange(c: bv32)
    ensures Shifted(c) < 0x4000_0000
  {
  }

  lemma AddRange(a: bv32, b: bv32)
    requires a < 0x4000_0000 && b < 0x4000_0000
    ensures Add(a, b) < 0x4000_0000
  {
  }

  lemma AddCancels(s: bv32, f: bv32, v: bv32, w: bv32)
    ensures Add(Add(s, v), f) == Add(Add(s, w), f) ==> v == w
  {
  }

  /** Different symbols give different states. */
  lemma StepInjectiveInSymbol(c: bv32, v: bv32, w: bv32)
    requires Step(c, v) == Step(c, w)
    ensures v == w
  {
    hide Feedback, Shifted, Add;
    AddCancels(Shifted(c), Feedback(c), v, w);
  }

  // ----- whole symbol sequences

  function Polymod(c: bv32, symbols: seq<bv32>): bv32 {
    if symbols == [] then c
    else Step(Polymod(c, symbols[..|symbols| - 1]), symbols[|symbols| - 1])
  }

  ghost predicate Symbols(symbols: seq<bv32>) {
    forall i | 0 <= i < |symbols| :: symbols[i] < 32
  }

  lemma {:induction false} PolymodRange(c: bv32, symbols: seq<bv32>)
    requires c < 0x4000_0000 && Symbols(symbols)
    ensures Polymod(c, symbols) < 0x4000_0000
  {
    if symbols == [] {
    } else {
      StepRange(Polymod(c, symbols[..|symbols| - 1]), symbols[|symbols| - 1]);
    }
  }

  lemma {:induction false} PolymodConcat(c: bv32, first: seq<bv32>, second: seq<bv32>)
    ensures Polymod(c, first + second) == Polymod(Polymod(c, first), second)
  {
    hide Step;
    if second == [] {
      assert first + second == first;
    } else {
      var n := |second| - 1;
      PolymodConcat(c, first, second[..n]);
      assert (first + second)[..|first| + n] == first + second[..n];
    }
  }

  /** A single changed symbol changes the checksum, at any length and position. */
  lemma {:induction false} SingleErrorDetected(c: bv32, a: seq<bv32>, b: seq<bv32>, k: nat)
    requires c < 0x4000_0000 && Symbols(a) && Symbols(b) && |a| == |b| && k < |a|
    requires a[k] != b[k] && forall i | 0 <= i < |a| && i != k :: a[i] == b[i]
    ensures Polymod(c, a) != Polymod(c, b)
  {
    hide Step;
    var n := |a| - 1;
    PolymodRange(c, a[..n]);
    PolymodRange(c, b[..n]);
    if k == n {
      assert a[..n] == b[..n];
      if Polymod(c, a) == Polymod(c, b) {
        StepInjectiveInSymbol(Polymod(c, a[..n]), a[n], b[n]);
      }
    } else {
      SingleErrorDetected(c, a[..n], b[..n], k);
      if Polymod(c, a) == Polymod(c, b) {
        StepInjective(Polymod(c, a[..n]), Polymod(c, b[..n]), a[n]);
      }
    }
  }

  // ----- differences

  lemma OnAdd(c: bv32, d: bv32, i: nat)
    requires i < 5
    ensures On(Add(c, d), i) <==> On(c, i) != On(d, i)
  {
  }

  lemma TapAdd(r: bv32, s: bv32, a: bool, b: bool, g: bv32)
    ensures Tap(Add(r, s), a != b, g) == Add(Tap(r, a, g), Tap(s, b, g))
  {
    AddSwap(r, s, g);
    hide Add;
  }

  lemma AddCommutes(a: bv32, b: bv32)
    ensures Add(a, b) == Add(b, a)
  {
  }

  lemma AddSelf(v: bv32)
    ensures Add(v, v) == 0
  {
  }

  lemma AddSwap(r: bv32, s: bv32, g: bv32)
    ensures Add(Add(r, s), g) == Add(Add(r, g), s) == Add(r, Add(s, g))
    ensures Add(r, s) == Add(Add(r, g), Add(s, g))
  {
    AddAssociative(r, s, g);
    AddAssociative(r, g, s);
    AddCommutes(s, g);
    AddAssociative(r, g, Add(s, g));
    AddAssociative(g, g, s);
    AddAssociative(g, s, g);
    AddSelf(g);
    AddCommutes(0, s);
    AddAssociative(s, 0, 0);
    hide Add;
  }

  lemma {:induction false} TapsAdd(c: bv32, d: bv32, n: nat)
    requires n <= 5
    ensures Taps(Add(c, d), n) == Add(Taps(c, n), Taps(d, n))
  {
    if n == 0 {
      assert Add(0, 0) == 0;
    } else {
      TapsAdd(c, d, n - 1);
      OnAdd(c, d, n - 1);
      TapAdd(Taps(c, n - 1), Taps(d, n - 1), On(c, n - 1), On(d, n - 1), Generator(n - 1));
      hide On, Tap, Add, Generator;
    }
  }

  lemma ShiftedAdds(c: bv32, d: bv32)
    ensures Shifted(Add(c, d)) == Add(Shifted(c), Shifted(d))
  {
  }

  lemma AddSix(a: bv32, b: bv32, v: bv32, w: bv32, f: bv32, g: bv32)
    ensures Add(Add(Add(a, b), Add(v, w)), Add(f, g)) == Add(Add(Add(a, v), f), Add(Add(b, w), g))
  {
    AddSwap(Add(a, b), v, w);
    AddSwap(a, b, v);
    AddSwap(Add(a, v), b, w);
    var x, y := Add(a, v), Add(b, w);
    AddSwap(Add(x, y), f, g);
    AddSwap(x, y, f);
    AddSwap(Add(x, f), y, g);
    hide Add;
  }

  /** A step is linear in the state and the symbol together. */
  lemma StepAdd(c: bv32, d: bv32, v: bv32, w: bv32)
    ensures Step(Add(c, d), Add(v, w)) == Add(Step(c, v), Step(d, w))
  {
    ShiftedAdds(c, d);
    TapsAdd(c, d, 5);
    AddSix(Shifted(c), Shifted(d), v, w, Feedback(c), Feedback(d));
    hide Shifted, Taps, Add;
  }

  /** `n` steps with the symbol zero. */
  function ZeroSteps(c: bv32, n: nat): bv32 {
    if n == 0 then c else Step(ZeroSteps(c, n - 1), 0)
  }

  /** The difference of two states moves by zero steps under the same symbols. */
  lemma {:induction false} DifferenceMoves(c: bv32, d: bv32, symbols: seq<bv32>)
    ensures Add(Polymod(c, symbols), Polymod(d, symbols)) == ZeroSteps(Add(c, d), |symbols|)
  {
    hide Step, Add;
    if symbols != [] {
      var n := |symbols| - 1;
      DifferenceMoves(c, d, symbols[..n]);
      StepAdd(Polymod(c, symbols[..n]), Polymod(d, symbols[..n]), symbols[n], symbols[n]);
      AddSelf(symbols[n]);
    }
  }

  // ----- steps backwards

  /** The state before a zero step: one constant for each of the five lowest bits. */
  function Before(c: bv32): bv32 {
    Add(c >> 5, Untaps(c & 1 != 0, c & 2 != 0, c & 4 != 0, c & 8 != 0, c & 16 != 0))
  }

  function Untaps(b0: bool, b1: bool, b2: bool, b3: bool, b4: bool): bv32 {
    Tap(Tap(Tap(Tap(Tap(0, b0, 0x228b_f1a8), b1, 0x1703_c750), b2, 0x2c97_2fa9), b3, 0x0b2e_5a72), b4, 0x14d8_95ed)
  }

  function Top(b0: bool, b1: bool, b2: bool, b3: bool, b4: bool): bv32 {
    Tap(Tap(Tap(Tap(Tap(0, b0, 0x200_0000), b1, 0x400_0000), b2, 0x800_0000), b3, 0x1000_0000), b4, 0x2000_0000)
  }

  lemma FlatBack(b0: bool, b1: bool, b2: bool, b3: bool, b4: bool)
    ensures Before(Flat(b0, b1, b2, b3, b4)) == Top(b0, b1, b2, b3, b4)
  {
  }

  lemma ShiftedLowBits(c: bv32, f: bv32)
    ensures Add(Shifted(c), f) & 1 == f & 1 && Add(Shifted(c), f) & 2 == f & 2 && Add(Shifted(c), f) & 4 == f & 4
    ensures Add(Shifted(c), f) & 8 == f & 8 && Add(Shifted(c), f) & 16 == f & 16
  {
  }

  lemma ShiftedHighBits(c: bv32, f: bv32)
    ensures Add(Shifted(c), f) >> 5 == Add(c & 0x1ff_ffff, f >> 5)
  {
  }

  lemma BeforeShifted(c: bv32, f: bv32)
    ensures Before(Add(Shifted(c), f)) == Add(c & 0x1ff_ffff, Before(f))
  {
    ShiftedLowBits(c, f);
    ShiftedHighBits(c, f);
    hide Add, Shifted, Untaps;
    BeforeIs(Add(Shifted(c), f));
    BeforeIs(f);
    AddAssociative(c & 0x1ff_ffff, f >> 5, UntapsOf(f));
  }

  function UntapsOf(c: bv32): bv32 {
    Untaps(c & 1 != 0, c & 2 != 0, c & 4 != 0, c & 8 != 0, c & 16 != 0)
  }

  lemma BeforeIs(c: bv32)
    ensures Before(c) == Add(c >> 5, UntapsOf(c))
  {
    hide Add, Untaps;
  }

  lemma TopSteps(c: bv32)
    ensures Tap(0, On(c, 0), 0x200_0000) == c & 0x200_0000
    ensures Tap(c & 0x200_0000, On(c, 1), 0x400_0000) == c & 0x600_0000
    ensures Tap(c & 0x600_0000, On(c, 2), 0x800_0000) == c & 0xe00_0000
    ensures Tap(c & 0xe00_0000, On(c, 3), 0x1000_0000) == c & 0x1e00_0000
    ensures Tap(c & 0x1e00_0000, On(c, 4), 0x2000_0000) == c & 0x3e00_0000
  {
  }

  lemma TopIs(c: bv32)
    ensures Top(On(c, 0), On(c, 1), On(c, 2), On(c, 3), On(c, 4)) == c & 0x3e00_0000
  {
    TopSteps(c);
    hide Tap, On;
  }

  lemma TopBits(c: bv32)
    requires c < 0x4000_0000
    ensures Add(c & 0x1ff_ffff, Top(On(c, 0), On(c, 1), On(c, 2), On(c, 3), On(c, 4))) == c
  {
    TopIs(c);
    hide Top, On;
  }

  lemma AddNothing(a: bv32, f: bv32)
    ensures Add(Add(a, 0), f) == Add(a, f)
  {
  }

  lemma BeforeUndoes(c: bv32)
    requires c < 0x4000_0000
    ensures Before(Step(c, 0)) == c
  {
    hide Feedback, Flat, On, Shifted, Add, Before, Top;
    FeedbackIsFlat(c);
    AddNothing(Shifted(c), Feedback(c));
    BeforeShifted(c, Feedback(c));
    FlatBack(On(c, 0), On(c, 1), On(c, 2), On(c, 3), On(c, 4));
    TopBits(c);
  }

  function BeforeBy(c: bv32, n: nat): bv32
    decreases n
  {
    if n == 0 then c else BeforeBy(Before(c), n - 1)
  }

  /** None of the `n` states before `c` is as small as a symbol. */
  predicate NoSymbolBefore(c: bv32, n: nat)
    decreases n
  {
    n == 0 || (Before(c) >= 32 && NoSymbolBefore(Before(c), n - 1))
  }

  lemma {:induction false} NoSymbolBoth(c: bv32, m: nat, n: nat)
    requires NoSymbolBefore(c, m) && NoSymbolBefore(BeforeBy(c, m), n)
    ensures NoSymbolBefore(c, m + n)
    decreases m
  {
    hide Before;
    if m > 0 {
      NoSymbolBoth(Before(c), m - 1, n);
    }
  }

  /** A state with no symbol among the `n` before it is not reached from a symbol in that many zero
      steps or fewer. */
  lemma {:induction false} NotReached(e: bv32, k: nat, c: bv32, n: nat)
    requires e < 32 <= c && k <= n && NoSymbolBefore(c, n)
    ensures ZeroSteps(e, k) != c
    decreases k
  {
    hide Step, Before;
    if k > 0 {
      NotReached(e, k - 1, Before(c), n - 1);
      ZeroRange(e, k - 1);
      BeforeUndoes(ZeroSteps(e, k - 1));
    }
  }

  lemma {:induction false} ZeroRange(e: bv32, k: nat)
    requires e < 32
    ensures ZeroSteps(e, k) < 0x4000_0000
    decreases k
  {
    hide Step;
    if k > 0 {
      ZeroRange(e, k - 1);
      StepRange(ZeroSteps(e, k - 1), 0);
    }
  }

  /** Five states, each the one before the last. */
  lemma FiveBack(a: bv32, b: bv32, c: bv32, d: bv32, e: bv32, f: bv32)
    requires Before(a) == b >= 32 && Before(b) == c >= 32 && Before(c) == d >= 32
    requires Before(d) == e >= 32 && Before(e) == f >= 32
    ensures NoSymbolBefore(a, 5) && BeforeBy(a, 5) == f
  {
    hide Before;
    assert NoSymbolBefore(e, 1) && BeforeBy(e, 1) == f;
    assert NoSymbolBefore(d, 2) && BeforeBy(d, 2) == f;
    assert NoSymbolBefore(c, 3) && BeforeBy(c, 3) == f;
    assert NoSymbolBefore(b, 4) && BeforeBy(b, 4) == f;
  }

  lemma {:induction false} BeforeBySum(c: bv32, m: nat, n: nat)
    ensures BeforeBy(c, m + n) == BeforeBy(BeforeBy(c, m), n)
    decreases m
  {
    hide Before;
    if m > 0 {
      BeforeBySum(Before(c), m - 1, n);
    }
  }

  lemma TenBack(a: bv32, b: bv32, c: bv32)
    requires NoSymbolBefore(a, 5) && BeforeBy(a, 5) == b && NoSymbolBefore(b, 5) && BeforeBy(b, 5) == c
    ensures NoSymbolBefore(a, 10) && BeforeBy(a, 10) == c
  {
    NoSymbolBoth(a, 5, 5);
    BeforeBySum(a, 5, 5);
    hide NoSymbolBefore, BeforeBy;
  }

  lemma Back0()
    ensures NoSymbolBefore(0x2bc8_30a2, 10) && BeforeBy(0x2bc8_30a2, 10) == 0x17c7_ae0b
  {
    hide NoSymbolBefore, BeforeBy;
    FiveBack(0x2bc8_30a2, 0x165d_86d5, 0x1a76_a7da, 0x826_bdf1, 0x3612_51aa, 0x1d9d_0faf);
    FiveBack(0x1d9d_0faf, 0x12dd_ab5e, 0x24f4_ca3c, 0x3246_4667, 0x188d_2b62, 0x17c7_ae0b);
    TenBack(0x2bc8_30a2, 0x1d9d_0faf, 0x17c7_ae0b);
  }

  lemma Back1()
    ensures NoSymbolBefore(0x17c7_ae0b, 10) && BeforeBy(0x17c7_ae0b, 10) == 0x274d_7abf
  {
    hide NoSymbolBefore, BeforeBy;
    FiveBack(0x17c7_ae0b, 0x3e18_51fa, 0x905_ca40, 0x48_2e52, 0x3d9_13cf, 0x122f_8bbd);
    FiveBack(0x122f_8bbd, 0x117b_6dc3, 0x3503_ed96, 0x2ee4_6278, 0x1e81_ec8c, 0x274d_7abf);
    TenBack(0x17c7_ae0b, 0x122f_8bbd, 0x274d_7abf);
  }

  lemma Back2()
    ensures NoSymbolBefore(0x274d_7abf, 10) && BeforeBy(0x274d_7abf, 10) == 0x2056_b172
  {
    hide NoSymbolBefore, BeforeBy;
    FiveBack(0x274d_7abf, 0x7d3_bd1b, 0x2a40_648f, 0x1363_4007, 0x1984_0351, 0x369f_445f);
    FiveBack(0x369f_445f, 0x75d_2cec, 0x2783_9cbc, 0x325d_fcd3, 0x20c2_4cf3, 0x2056_b172);
    TenBack(0x274d_7abf, 0x369f_445f, 0x2056_b172);
  }

  lemma Back3()
    ensures NoSymbolBefore(0x2056_b172, 10) && BeforeBy(0x2056_b172, 10) == 0x2e97_cab8
  {
    hide NoSymbolBefore, BeforeBy;
    FiveBack(0x2056_b172, 0x2d9_e736, 0x2f5a_b22d, 0x448_51e2, 0x1721_85df, 0x650_dae0);
    FiveBack(0x650_dae0, 0x32_86d7, 0xdc6_188a, 0x1c43_ade6, 0x3b76_f596, 0x2e97_cab8);
    TenBack(0x2056_b172, 0x650_dae0, 0x2e97_cab8);
  }

  lemma Back4()
    ensures NoSymbolBefore(0x2e97_cab8, 10) && BeforeBy(0x2e97_cab8, 10) == 0x103d_29f1
  {
    hide NoSymbolBefore, BeforeBy;
    FiveBack(0x2e97_cab8, 0x1e82_71ca, 0x1cd9_8eac, 0x275f_b9ae, 0x3180_4f46, 0x3a18_ea83);
    FiveBack(0x3a18_ea83, 0x3458_f1ac, 0x261b_b256, 0x2e7c_a086, 0x3ae7_0dfd, 0x103d_29f1);
    TenBack(0x2e97_cab8, 0x3a18_ea83, 0x103d_29f1);
  }

  lemma Back5()
    ensures NoSymbolBefore(0x103d_29f1, 10) && BeforeBy(0x103d_29f1, 10) == 0xdb5_05f7
  {
    hide NoSymbolBefore, BeforeBy;
    FiveBack(0x103d_29f1, 0x36d2_8d0a, 0x1d9b_094a, 0x1cc1_4568, 0xbc8_5059, 0x3d23_7cb5);
    FiveBack(0x3d23_7cb5, 0x1b2d_5009, 0x297c_c15a, 0x9be_eec5, 0xe51_2977, 0xdb5_05f7);
    TenBack(0x103d_29f1, 0x3d23_7cb5, 0xdb5_05f7);
  }

  lemma Back6()
    ensures NoSymbolBefore(0xdb5_05f7, 10) && BeforeBy(0xdb5_05f7, 10) == 0x3642_5580
  {
    hide NoSymbolBefore, BeforeBy;
    FiveBack(0xdb5_05f7, 0xdaa_2493, 0x213d_f231, 0x375a_8bd4, 0x39f5_6e1a, 0x93a_a3bf);
    FiveBack(0x93a_a3bf, 0x6a0_03d3, 0x2165_a30b, 0x3fad_4192, 0x226_38b1, 0x3642_5580);
    TenBack(0xdb5_05f7, 0x93a_a3bf, 0x3642_5580);
  }

  lemma Back7()
    ensures NoSymbolBefore(0x3642_5580, 10) && BeforeBy(0x3642_5580, 10) == 0x3ef0_7c66
  {
    hide NoSymbolBefore, BeforeBy;
    FiveBack(0x3642_5580, 0x1b2_12ac, 0x27b4_e54e, 0x3187_15a1, 0x2307_c905, 0xf04_e049);
    FiveBack(0xf04_e049, 0x29dd_8cd8, 0x1eb8_23f9, 0x3d88_ff28, 0xac2_1d8b, 0x3ef0_7c66);
    TenBack(0x3642_5580, 0xf04_e049, 0x3ef0_7c66);
  }

  lemma Back8()
    ensures NoSymbolBefore(0x3ef0_7c66, 10) && BeforeBy(0x3ef0_7c66, 10) == 0x1b66_abf6
  {
    hide NoSymbolBefore, BeforeBy;
    FiveBack(0x3ef0_7c66, 0x3a63_6b1a, 0x926_1397, 0xd8e_bc20, 0x6c_75e1, 0x2288_9207);
    FiveBack(0x2288_9207, 0x180b_5dc1, 0x224b_ab46, 0x3a86_b5a3, 0x345c_0355, 0x1b66_abf6);
    TenBack(0x3ef0_7c66, 0x2288_9207, 0x1b66_abf6);
  }

  /** How the constants of version 0 and of the versions above it differ. */
  const CONSTANTS_DIFFERENCE: bv32 := 0x2bc8_30a2

  /** No difference of two symbols moves to the difference of the constants within 90 symbols. */
  lemma ConstantsApart(e: bv32, n: nat)
    requires e < 32 && n <= 90
    ensures ZeroSteps(e, n) != CONSTANTS_DIFFERENCE
  {
    hide Before, BeforeBy, NoSymbolBefore;
    Back0();
    Back1();
    Back2();
    Back3();
    Back4();
    Back5();
    Back6();
    Back7();
    Back8();
    NoSymbolBoth(0x3642_5580, 10, 10);
    NoSymbolBoth(0xdb5_05f7, 10, 20);
    NoSymbolBoth(0x103d_29f1, 10, 30);
    NoSymbolBoth(0x2e97_cab8, 10, 40);
    NoSymbolBoth(0x2056_b172, 10, 50);
    NoSymbolBoth(0x274d_7abf, 10, 60);
    NoSymbolBoth(0x17c7_ae0b, 10, 70);
    NoSymbolBoth(0x2bc8_30a2, 10, 80);
    NotReached(e, n, CONSTANTS_DIFFERENCE, 90);
  }

  // ----- closing a checksum

  /** A symbol added to the low 25 bits of a state moves up with them. */
  lemma StepCarries(z: bv32, d: bv32, v: bv32)
    requires d < 0x200_0000
    ensures Step(Add(z, d), v) == Add(Step(z, 0), Add(d << 5, v))
  {
    hide Feedback, Shifted, SameTop, Add;
    SameTopLow(z, d);
    SameTopSameFeedback(Add(z, d), z);
    ShiftedAdd(z, d);
    AddFour(Shifted(z), d << 5, v, Feedback(z));
  }

  lemma SameTopLow(z: bv32, d: bv32)
    requires d < 0x200_0000
    ensures SameTop(Add(z, d), z)
  {
  }

  lemma ShiftedAdd(z: bv32, d: bv32)
    requires d < 0x200_0000
    ensures Shifted(Add(z, d)) == Add(Shifted(z), d << 5)
  {
  }

  lemma AddFour(s: bv32, e: bv32, v: bv32, f: bv32)
    ensures Add(Add(Add(s, e), v), f) == Add(Add(Add(s, 0), f), Add(e, v))
  {
  }

  function Symbol(p: bv32, i: nat): bv32
    requires i < 6
  {
    if i == 0 then (p >> 25) & 31
    else if i == 1 then (p >> 20) & 31
    else if i == 2 then (p >> 15) & 31
    else if i == 3 then (p >> 10) & 31
    else if i == 4 then (p >> 5) & 31
    else p & 31
  }

  /** The six checksum symbols of section "Bech32" of BIP 173: the state after six zero
      symbols, plus the constant, five bits at a time. */
  function CheckSymbols(c: bv32, target: bv32): (r: seq<bv32>)
    ensures |r| == 6
  {
    var p := Add(Polymod(c, Zeros(6)), target);
    [Symbol(p, 0), Symbol(p, 1), Symbol(p, 2), Symbol(p, 3), Symbol(p, 4), Symbol(p, 5)]
  }

  /** The first `i` symbols of a 30-bit word packed again. */
  function Packed(p: bv32, i: nat): bv32
    requires i <= 6
  {
    if i == 0 then 0
    else if i == 1 then p >> 25
    else if i == 2 then p >> 20
    else if i == 3 then p >> 15
    else if i == 4 then p >> 10
    else if i == 5 then p >> 5
    else p
  }

  predicate PacksAt(p: bv32, i: nat)
    requires i < 6
  {
    && Packed(p, i) < 0x200_0000 && Symbol(p, i) < 32
    && Add(Packed(p, i) << 5, Symbol(p, i)) == Packed(p, i + 1)
  }

  lemma Packed0(p: bv32)
    requires p < 0x4000_0000
    ensures PacksAt(p, 0)
  {
  }

  lemma Packed1(p: bv32)
    requires p < 0x4000_0000
    ensures PacksAt(p, 1)
  {
  }

  lemma Packed2(p: bv32)
    requires p < 0x4000_0000
    ensures PacksAt(p, 2)
  {
  }

  lemma Packed3(p: bv32)
    requires p < 0x4000_0000
    ensures PacksAt(p, 3)
  {
  }

  lemma Packed4(p: bv32)
    requires p < 0x4000_0000
    ensures PacksAt(p, 4)
  {
  }

  lemma Packed5(p: bv32)
    requires p < 0x4000_0000
    ensures PacksAt(p, 5)
  {
  }

  lemma PackedStep(p: bv32, i: nat)
    requires p < 0x4000_0000 && i < 6
    ensures PacksAt(p, i)
  {
    hide PacksAt;
    Packed0(p);
    Packed1(p);
    Packed2(p);
    Packed3(p);
    Packed4(p);
    Packed5(p);
    if i == 0 {
    } else if i == 1 {
    } else if i == 2 {
    } else if i == 3 {
    } else if i == 4 {
    } else {
      assert i == 5;
    }
  }

  function Zeros(n: nat): (r: seq<bv32>)
    ensures |r| == n && forall i | 0 <= i < n :: r[i] == 0
  {
    seq(n, _ => 0)
  }

  /** Symbols packing into `p` move the all-zero run by exactly the packed word. */
  lemma {:induction false} PackedRun(c: bv32, p: bv32, symbols: seq<bv32>, i: nat)
    requires p < 0x4000_0000 && i <= 6 && |symbols| == 6
    requires forall k | 0 <= k < 6 :: symbols[k] == Symbol(p, k)
    ensures Polymod(c, symbols[..i]) == Add(Polymod(c, Zeros(i)), Packed(p, i))
  {
    hide Step, Add, Symbol, Packed, Polymod;
    if i == 0 {
      PackedNothing(p, c);
      PolymodOfNothing(c);
    } else {
      PackedRun(c, p, symbols, i - 1);
      PackedStep(p, i - 1);
      StepCarries(Polymod(c, Zeros(i - 1)), Packed(p, i - 1), symbols[i - 1]);
      PolymodSnoc(c, symbols[..i - 1], symbols[i - 1]);
      assert symbols[..i] == symbols[..i - 1] + [symbols[i - 1]];
      PolymodSnoc(c, Zeros(i - 1), 0);
      assert Zeros(i) == Zeros(i - 1) + [0];
    }
  }

  lemma PolymodOfNothing(c: bv32)
    ensures Polymod(c, []) == c
  {
  }

  lemma PolymodSnoc(c: bv32, symbols: seq<bv32>, v: bv32)
    ensures Polymod(c, symbols + [v]) == Step(Polymod(c, symbols), v)
  {
    hide Step;
    assert (symbols + [v])[..|symbols|] == symbols;
  }

  lemma PackedNothing(p: bv32, c: bv32)
    ensures Add(c, Packed(p, 0)) == c
  {
  }

  lemma AddBack(z: bv32, target: bv32)
    ensures Add(z, Add(z, target)) == target
  {
  }

  /** Appending the checksum symbols makes the whole string check. */
  lemma CheckSymbolsClose(c: bv32, target: bv32)
    requires c < 0x4000_0000 && target < 0x4000_0000
    ensures Polymod(c, CheckSymbols(c, target)) == target && Symbols(CheckSymbols(c, target))
  {
    hide Step, Add, Symbol, Packed;
    var z := Polymod(c, Zeros(6));
    PolymodRange(c, Zeros(6));
    AddRange(z, target);
    var p := Add(z, target);
    var symbols := CheckSymbols(c, target);
    SymbolsSmall(p);
    hide Zeros, Polymod;
    PackedRun(c, p, symbols, 6);
    assert symbols[..6] == symbols;
    PackedAll(p);
    AddBack(z, target);
  }

  lemma SymbolsSmall(p: bv32)
    requires p < 0x4000_0000
    ensures Symbols([Symbol(p, 0), Symbol(p, 1), Symbol(p, 2), Symbol(p, 3), Symbol(p, 4), Symbol(p, 5)])
  {
    hide Symbol, Packed, Add;
    PackedStep(p, 0);
    PackedStep(p, 1);
    PackedStep(p, 2);
    PackedStep(p, 3);
    PackedStep(p, 4);
    PackedStep(p, 5);
  }

  lemma PackedAll(p: bv32)
    ensures Packed(p, 6) == p
  {
  }

  // ----- only one checksum closes

  /** Six symbols side by side. */
  function Word(a: bv32, b: bv32, c: bv32, d: bv32, e: bv32, f: bv32): bv32 {
    (a << 25) | (b << 20) | (c << 15) | (d << 10) | (e << 5) | f
  }

  lemma WordSymbols(a: bv32, b: bv32, c: bv32, d: bv32, e: bv32, f: bv32)
    requires a < 32 && b < 32 && c < 32 && d < 32 && e < 32 && f < 32
    ensures var p := Word(a, b, c, d, e, f);
            && p < 0x4000_0000
            && Symbol(p, 0) == a && Symbol(p, 1) == b && Symbol(p, 2) == c
            && Symbol(p, 3) == d && Symbol(p, 4) == e && Symbol(p, 5) == f
  {
  }

  lemma AddMeets(z: bv32, p: bv32, target: bv32)
    requires Add(z, p) == target
    ensures p == Add(z, target)
  {
  }

  /** The checksum symbols are the only six that close. */
  lemma CheckSymbolsUnique(c: bv32, target: bv32, symbols: seq<bv32>)
    requires |symbols| == 6 && Symbols(symbols) && Polymod(c, symbols) == target
    ensures symbols == CheckSymbols(c, target)
  {
    hide Step, Add, Symbol, Packed, Polymod, Word, Zeros;
    var p := Word(symbols[0], symbols[1], symbols[2], symbols[3], symbols[4], symbols[5]);
    WordSymbols(symbols[0], symbols[1], symbols[2], symbols[3], symbols[4], symbols[5]);
    PackedRun(c, p, symbols, 6);
    assert symbols[..6] == symbols;
    PackedAll(p);
    AddMeets(Polymod(c, Zeros(6)), p, target);
  }
}
