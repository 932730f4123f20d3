/** Which texts a rate revision accepts, against the written-out alphabet and plain numbers. */
module RateTexts {
  import opened Outcomes
  import opened Alphabets
  import opened Unicode
  import opened Decimals
  import opened RateRevision
  import Rationals

  /** The code unit is that of a character of the alphabet. */
  predicate In(u: int, alphabet: string) {
    exists k :: 0 <= k < |alphabet| && alphabet[k] as int == u
  }

  lemma {:induction false} InAlphabet(c: char, alphabet: string)
    ensures In(c as int, alphabet) <==> c in alphabet
  {
  }

  lemma {:induction false} InEither(u: int, a: string, b: string)
    ensures In(u, a + b) <==> In(u, a) || In(u, b)
  {
    if In(u, a) {
      var k :| 0 <= k < |a| && a[k] as int == u;
      assert (a + b)[k] == a[k];
    }
    if In(u, b) {
      var k :| 0 <= k < |b| && b[k] as int == u;
      assert (a + b)[|a| + k] == b[k];
    }
  }

  lemma {:induction false} AlphanumericByLetters(u: int)
    ensures IsAlphanumeric(u) <==> In(u, UPPER) || In(u, LOWER) || In(u, DIGITS)
    ensures InRange(u, 'A', 'Z') <==> In(u, UPPER)
  {
    if 0 <= u < 128 {
      var c := u as char;
      IsUpper(c);
      IsLower(c);
      IsDecimal(c);
      InAlphabet(c, UPPER);
      InAlphabet(c, LOWER);
      InAlphabet(c, DIGITS);
    } else {
      forall k | 0 <= k < 26 ensures UPPER[k] as int < 128 && LOWER[k] as int < 128 { UpperRun(k); LowerRun(k); }
      forall k | 0 <= k < 10 ensures DIGITS[k] as int < 128 { DigitRun(k); }
    }
  }

  lemma {:induction false} KeyUnitByLetters(u: int)
    ensures IsKeyUnit(u) <==> In(u, UPPER + LOWER + DIGITS) || In(u, "._:-")
  {
    AlphanumericByLetters(u);
    InEither(u, UPPER + LOWER, DIGITS);
    InEither(u, UPPER, LOWER);
    var signs := "._:-";
    assert signs[0] as int == '.' as int && signs[1] as int == '_' as int && signs[2] as int == ':' as int
           && signs[3] as int == '-' as int;
  }

  /** A business key: a letter or digit, then up to 127 letters, digits, dots, underscores, colons
      and hyphens. */
  lemma {:induction false} BusinessKeyByLetters(s: JsString)
    ensures BusinessKeyOk(s)
            <==> 1 <= |s| <= 128 && In(s[0], UPPER + LOWER + DIGITS)
                 && forall k :: 1 <= k < |s| ==> In(s[k], UPPER + LOWER + DIGITS) || In(s[k], "._:-")
  {
    if s != [] {
      AlphanumericByLetters(s[0]);
      InEither(s[0], UPPER + LOWER, DIGITS);
      InEither(s[0], UPPER, LOWER);
    }
    forall k | 1 <= k < |s|
      ensures IsKeyUnit(s[k]) <==> In(s[k], UPPER + LOWER + DIGITS) || In(s[k], "._:-")
    {
      KeyUnitByLetters(s[k]);
    }
  }

  lemma {:induction false} CurrencyByLetters(s: JsString)
    ensures CurrencyOk(s) <==> |s| == 3 && In(s[0], UPPER) && In(s[1], UPPER) && In(s[2], UPPER)
  {
    forall k | 0 <= k < |s| ensures InRange(s[k], 'A', 'Z') <==> In(s[k], UPPER) { AlphanumericByLetters(s[k]); }
  }

  /** Both numbers are multiples of k, which is not one. */
  predicate CommonFactor(a: int, b: int, k: int, m: int, n: int) {
    k >= 2 && a == k * m && b == k * n
  }

  lemma {:induction false} LowestExactly(a: nat, b: nat)
    requires b > 0
    ensures Rationals.Gcd(a, b) == 1 <==> forall k, m, n :: !CommonFactor(a, b, k, m, n)
  {
    var g := Rationals.Gcd(a, b);
    Rationals.GcdDivides(a, b);
    if g == 1 {
      var x, y := Rationals.Bezout(a, b);
      forall k, m, n ensures !CommonFactor(a, b, k, m, n) {
        if CommonFactor(a, b, k, m, n) {
          Rationals.FactorOut(k, m, x, n, y);
          Rationals.MulSign(k, m * x + n * y);
        }
      }
    } else {
      assert CommonFactor(a, b, g, a / g, b / g);
    }
  }

  predicate ShortNumeral(s: JsString) {
    1 <= |s| <= 78 && (s[0] != 48 || |s| == 1) && forall k :: 0 <= k < |s| ==> 48 <= s[k] <= 57
  }

  /** A price is accepted exactly if its two parts are numerals of at most 78 digits without a
      leading zero, the denominator is positive, and they have no common factor. */
  lemma {:induction false} PriceExactly(price: Price)
    ensures PriceOk(price)
            <==> ShortNumeral(price.numerator) && ShortNumeral(price.denominator) && Value(price.denominator) > 0
                 && forall k, m, n :: !CommonFactor(Value(price.numerator), Value(price.denominator), k, m, n)
  {
    NumeralExactly(price.numerator);
    NumeralExactly(price.denominator);
    if DecimalOk(price.numerator) && DecimalOk(price.denominator) && Value(price.denominator) > 0 {
      ValueIsNatural(price.numerator);
      LowestExactly(Value(price.numerator), Value(price.denominator));
    }
  }

  lemma {:induction false} NumeralExactly(s: JsString)
    ensures DecimalOk(s) <==> ShortNumeral(s)
  {
  }

  /** A range is accepted exactly with keys for dimension and unit, and bounds in signed 64 bits that
      are numerals, the lower below the upper if there is one. */
  lemma {:induction false} RangeExactly(dimension: JsString, unit: JsString, lower: JsString, upper: Option<JsString>)
    ensures ApplicabilityOk(Range(dimension, unit, lower, upper))
            <==> BusinessKeyOk(dimension) && BusinessKeyOk(unit)
                 && ShortNumeral(lower) && Value(lower) <= 9_223_372_036_854_775_807
                 && match upper
                    case None => true
                    case Some(u) => ShortNumeral(u) && Value(lower) < Value(u) <= 9_223_372_036_854_775_807
  {
    NumeralExactly(lower);
    if upper.Some? { NumeralExactly(upper.value); }
  }

  /** A text of at most so many code points, none of them 0 or an unpaired surrogate. */
  predicate PlainText(s: JsString, maximum: nat) {
    && s != [] && |Points(s)| <= maximum
    && (forall k :: 0 <= k < |s| ==> 1 <= s[k] <= 0xFFFF)
    && forall i :: 0 <= i < |Points(s)| ==> !(0xD800 <= Points(s)[i] <= 0xDFFF)
  }

  /** The units of a text make at least half as many points. */
  lemma {:induction false} PointsAtLeastHalf(s: JsString)
    ensures |s| <= 2 * |Points(s)|
  {
    if s != [] { PointsAtLeastHalf(s[FirstPoint(s).1..]); }
  }

  /** A text of at most so many points, none zero or half a pair; twice as many units follow. */
  lemma {:induction false} TextExactly(s: JsString, maximum: nat)
    ensures TextOk(s, maximum) <==> PlainText(s, maximum)
  {
    PointsAtLeastHalf(s);
    NonzeroPoints(s);
  }

  // ----- instants -----

  /** An instant: "YYYY-MM-DDTHH:MM:SS.mmmZ" in decimal digits, fewer than sixty seconds, a year that is
      not zero, and a date that is printed as it was read. */
  lemma {:induction false} InstantExactly(s: JsString, calendar: Calendar)
    ensures InstantOk(s, calendar)
            <==> && |s| == 24 && (forall k | k in {0, 1, 2, 3, 5, 6, 8, 9, 11, 12, 14, 15, 18, 20, 21, 22} :: 48 <= s[k] <= 57)
                 && 48 <= s[17] <= 53
                 && s[4] == 45 && s[7] == 45 && s[10] == 84 && s[13] == 58 && s[16] == 58 && s[19] == 46 && s[23] == 90
                 && (s[0] != 48 || s[1] != 48 || s[2] != 48 || s[3] != 48)
                 && calendar.parse(s).Some? && calendar.show(calendar.parse(s).value) == s
  {
  }

  // ----- drafts -----

  /** The header of a draft: tenant of up to 191 points, source and profile version of up to 255,
      two instants, and a digest of 64 lower-case hexadecimal digits. */
  lemma {:induction false} HeaderExactly(draft: Draft, calendar: Calendar)
    ensures HeaderOk(draft, calendar)
            <==> PlainText(draft.tenant, 191) && PlainText(draft.sourceRef, 255) && PlainText(draft.profile.version, 255)
                 && InstantOk(draft.effectiveFrom, calendar) && InstantOk(draft.verifiedAt, calendar)
                 && var digest := draft.profile.artifactDigest;
                    |digest| == 64 && forall k :: 0 <= k < 64 ==> 48 <= digest[k] <= 57 || 97 <= digest[k] <= 102
  {
    TextExactly(draft.tenant, 191);
    TextExactly(draft.sourceRef, 255);
    TextExactly(draft.profile.version, 255);
  }

  /** A rate: five texts of up to 255 points for its binding, two keys, where it applies, a currency
      and a price. */
  lemma {:induction false} RateExactly(rate: Rate)
    ensures RateOk(rate)
            <==> (forall text | text in {rate.binding.provider, rate.binding.environment, rate.binding.account,
                                         rate.binding.model, rate.binding.modelVersion} :: PlainText(text, 255))
                 && BusinessKeyOk(rate.bucket) && BusinessKeyOk(rate.unit) && ApplicabilityOk(rate.applicability)
                 && CurrencyOk(rate.currency) && PriceOk(rate.price)
  {
    var b := rate.binding;
    TextExactly(b.provider, 255);
    TextExactly(b.environment, 255);
    TextExactly(b.account, 255);
    TextExactly(b.model, 255);
    TextExactly(b.modelVersion, 255);
  }
}
