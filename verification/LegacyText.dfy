/** What a Base58 text of 25 bytes looks like: with version byte 0 it starts with '1', with version
    byte 5 it is 34 characters and starts with '3'. */
module LegacyText {
  import opened Basics
  import opened Positional
  import opened Base58

  const P58: nat := 15599970876632771988160814054146447252125923204784443097088
  const P256: nat := 6277101735386680763835789423207666416102355444464034512896

  lemma PowerProduct(base: nat, m: nat, n: nat, a: nat, b: nat)
    requires Power(base, m) == a && Power(base, n) == b
    ensures Power(base, m + n) == a * b
  {
    PowerTimes(base, m, n);
  }

  /** 58^33. */
  lemma Power33()
    ensures Power(58, 33) == P58
  {
    assert Power(58, 3) == 195112;
    hide Power;
    PowerProduct(58, 3, 3, 195112, 195112);
    PowerProduct(58, 6, 3, 38068692544, 195112);
    PowerProduct(58, 9, 3, 7427658739644928, 195112);
    PowerProduct(58, 12, 12, 1449225352009601191936, 1449225352009601191936);
    PowerProduct(58, 24, 9, 2100254120907352485526230505830591911428096, 7427658739644928);
  }

  /** 256^24. */
  lemma Power24()
    ensures Power(256, 24) == P256
  {
    assert Power(256, 3) == 0x100_0000;
    hide Power;
    PowerProduct(256, 3, 3, 0x100_0000, 0x100_0000);
    PowerProduct(256, 6, 6, 0x1_0000_0000_0000, 0x1_0000_0000_0000);
    PowerProduct(256, 12, 12, 0x1_0000_0000_0000_0000_0000_0000, 0x1_0000_0000_0000_0000_0000_0000);
  }

  /** A number between its leading digit and the next. */
  lemma LeadingBounds(s: seq<nat>, base: nat)
    requires s != [] && base >= 2 && DigitsIn(s, base)
    ensures Times(s[0], Power(base, |s| - 1)) <= Value(s, base) < Times(s[0] + 1, Power(base, |s| - 1))
  {
    hide Value, Power;
    assert s == [s[0]] + s[1..];
    LeadingDigit(s[0], s[1..], base);
    ValueBound(s[1..], base);
  }

  function Times(a: nat, b: nat): nat {
    a * b
  }

  lemma TimesMonotone(a: nat, b: nat, c: nat, d: nat)
    requires a <= c && b <= d
    ensures Times(a, b) <= Times(c, d)
  {
    assert a * b <= c * b <= c * d;
  }

  /** From 5 * 256^24 to 6 * 256^24 every number has 34 digits in base 58, the first of them 2. */
  lemma FiveIsTwo(d: nat, k: nat, v: nat)
    requires 0 < d < 58
    requires Times(5, P256) <= v < Times(6, P256)
    requires Times(d, Power(58, k)) <= v < Times(d + 1, Power(58, k))
    ensures k == 33 && d == 2
  {
    hide Power;
    Power33();
    if k < 33 {
      PowerMonotone(58, k + 1, 33);
      PowerStep(58, k);
      TimesMonotone(d + 1, Power(58, k), 58, Power(58, k));
      assert false;
    } else if k > 33 {
      PowerMonotone(58, 34, k);
      PowerStep(58, 33);
      TimesMonotone(1, Power(58, 34), d, Power(58, k));
      assert false;
    } else {
      Around33(d, v);
    }
  }

  lemma Around33(d: nat, v: nat)
    requires Times(5, P256) <= v < Times(6, P256)
    requires Times(d, P58) <= v < Times(d + 1, P58)
    ensures d == 2
  {
    Scales();
    hide Times;
    if d < 2 {
      TimesMonotone(d + 1, P58, 2, P58);
    } else if d > 2 {
      TimesMonotone(3, P58, d, P58);
    }
  }

  /** How the two powers compare. */
  lemma Scales()
    ensures Times(2, P58) < Times(5, P256) < Times(6, P256) <= Times(3, P58)
  {
  }

  // ----- characters

  lemma FirstSymbols(ch: char)
    ensures CharValue(ch) == Some(0) ==> ch == '1'
    ensures CharValue(ch) == Some(2) ==> ch == '3'
  {
    AlphabetDistinct();
    assert ALPHABET[0] == NUMERALS[0] && ALPHABET[2] == NUMERALS[2];
  }

  lemma RawFirst(text: string)
    requires Raw(text).Some?
    ensures var raw := Raw(text).value;
            && |raw| >= 5 && text != "" && DigitsOf(text).Some?
            && (raw[0] == 0 ==> text[0] == '1')
            && (raw[0] != 0 ==> text[0] != '1' && raw == MinDigits(Value(DigitsOf(text).value, 58), 256))
  {
    var v := Value(DigitsOf(text).value, 58);
    MinDigitsSpell(v, 256);
    NoText(text);
    hide Value, MinDigits, DigitsOf, LeadingOnes;
    if LeadingOnes(text) == 0 {
      assert Zeros(0) + MinDigits(v, 256) == MinDigits(v, 256);
    }
  }

  lemma NoText(text: string)
    requires Raw(text).Some?
    ensures text != ""
  {
  }

  lemma VersionBounds(raw: seq<nat>)
    requires |raw| == 25 && DigitsIn(raw, 256)
    ensures Times(raw[0], P256) <= Value(raw, 256) < Times(raw[0] + 1, P256)
  {
    LeadingBounds(raw, 256);
    Power24();
    hide Value, Power, Times;
  }

  lemma FirstDigit(text: string, v: nat)
    requires text != "" && text[0] != '1' && DigitsOf(text).Some? && Value(DigitsOf(text).value, 58) == v
    requires Times(5, P256) <= v < Times(6, P256)
    ensures text[0] == '3' && |text| == 34
  {
    hide DigitsOf, Value, CharValue, Power, Times, DigitsIn;
    var digits := DigitsOf(text).value;
    LeadingBounds(digits, 58);
    DigitAt(text, 0);
    FirstSymbols(text[0]);
    FiveIsTwo(digits[0], |text| - 1, v);
  }

  /** THE FORM OF A LEGACY ADDRESS. */
  lemma LegacyForm(text: string)
    requires Raw(text).Some? && |Raw(text).value| == 25
    ensures text != ""
    ensures Raw(text).value[0] == 0 ==> text[0] == '1'
    ensures Raw(text).value[0] == 5 ==> text[0] == '3' && |text| == 34
  {
    RawFirst(text);
    hide Raw, DigitsOf, Value, MinDigits, Times;
    if Raw(text).value[0] == 5 {
      var v := Value(DigitsOf(text).value, 58);
      MinDigitsSpell(v, 256);
      VersionBounds(Raw(text).value);
      FirstDigit(text, v);
    }
  }
}
