/** Which identifiers, currency codes, fractions and headers a price accepts, against the
    written-out alphabet and the number of decimal digits. */
module PricingTexts {
  import opened Alphabets
  import opened Outcomes
  import opened Rationals
  import opened MeteringPricing
  import Decimals
  import PricingProof

  /** An identifier: a letter, then up to 127 letters, digits, underscores, dots and hyphens. */
  lemma {:induction false} IdentifierByLetters(text: string)
    ensures IsIdentifier(text)
            <==> 1 <= |text| <= 128 && text[0] in UPPER + LOWER
                 && forall k :: 0 <= k < |text| ==> text[k] in UPPER + LOWER + DIGITS + "_.-"
  {
    forall k | 0 <= k < |text|
      ensures text[k] in UPPER + LOWER <==> IsLetter(text[k])
      ensures text[k] in DIGITS <==> '0' <= text[k] <= '9'
    {
      IsUpper(text[k]);
      IsLower(text[k]);
      IsDecimal(text[k]);
    }
  }

  /** A currency code: three upper-case letters. */
  lemma {:induction false} CurrencyByLetters(text: string)
    ensures IsCurrency(text) <==> |text| == 3 && text[0] in UPPER && text[1] in UPPER && text[2] in UPPER
  {
    forall k | 0 <= k < |text| ensures text[k] in UPPER <==> 'A' <= text[k] <= 'Z' { IsUpper(text[k]); }
  }

  /** A numeral is as long as the number of powers of ten its value reaches. */
  lemma {:induction false} NumeralLength(n: nat, digits: nat)
    requires digits > 0
    ensures |Decimals.Numeral(n)| <= digits <==> n < Pow10(digits)
  {
    if n < 10 {
      Pow10Grows(1, digits);
    } else if digits > 1 {
      NumeralLength(n / 10, digits - 1);
    }
  }

  /** The bound of a fraction: numerator and denominator have at most 78 decimal digits. */
  lemma {:induction false} FitsByDigits(r: Rational)
    ensures Fits(r) <==> r.numerator >= 0 && |Decimals.Numeral(r.numerator)| <= 78
                         && r.denominator >= 0 && |Decimals.Numeral(r.denominator)| <= 78
  {
    if r.numerator >= 0 { NumeralLength(r.numerator, 78); }
    if r.denominator >= 0 { NumeralLength(r.denominator, 78); }
  }

  predicate SizesOk(input: PricingInput) {
    1 <= |input.buckets| <= 64 && 1 <= |input.usage| <= 64 && 1 <= |input.rates| <= 64
  }

  predicate FactorOk(r: Rational) {
    Valid(r) && r.numerator > 0
  }

  /** Which headers are accepted, and which error the others get. */
  lemma {:induction false} HeaderExactly(input: PricingInput)
    ensures CheckHeader(input) == None
            <==> IsIdentifier(input.version) && SizesOk(input) && IsCurrency(input.currencyCode)
                 && FactorOk(input.multiplier) && FactorOk(input.creditMicrosPerMinor)
    ensures CheckHeader(input) == Some(TypeError)
            <==> !IsIdentifier(input.version) || (SizesOk(input) && !IsCurrency(input.currencyCode))
  {
  }

  /** Which usage rows are accepted: known identifiers of a declared bucket and its unit, with a
      quantity in the range of signed 64 bits; only that range makes a RangeError. */
  lemma {:induction false} UsageRowExactly(buckets: map<string, Bucket>, u: Usage)
    ensures var error := CheckUsage(buckets)(u);
      && (error == None <==> && IsIdentifier(u.bucket) && IsIdentifier(u.unit)
                             && u.quantity.Some? && 0 <= u.quantity.value < 0x8000_0000_0000_0000
                             && u.bucket in buckets && buckets[u.bucket].unit == u.unit)
      && (error == Some(RangeError) <==> && IsIdentifier(u.bucket) && IsIdentifier(u.unit)
                                         && u.quantity.Some? && !(0 <= u.quantity.value < 0x8000_0000_0000_0000))
  {
  }

  /** Which rate rows are accepted: a fraction in range, of a declared bucket in its unit and in the
      currency of the price; only the range of the fraction makes a RangeError. */
  lemma {:induction false} RateRowExactly(buckets: map<string, Bucket>, currencyCode: string, r: Rate)
    ensures var error := CheckRate(buckets, currencyCode)(r);
      && (error == None <==> && IsIdentifier(r.bucket) && IsIdentifier(r.unit) && IsCurrency(r.currencyCode)
                             && Valid(r.minorPerUnit) && r.bucket in buckets && buckets[r.bucket].unit == r.unit
                             && r.currencyCode == currencyCode)
      && (error == Some(RangeError) <==> && IsIdentifier(r.bucket) && IsIdentifier(r.unit) && IsCurrency(r.currencyCode)
                                         && !Valid(r.minorPerUnit))
  {
    if Valid(r.minorPerUnit) { PricingProof.ReducedRate(r.minorPerUnit); }
  }

  /** Which buckets are accepted: their key, their unit and the bucket that includes them, if any, are
      identifiers; there is no other error than a TypeError. */
  lemma {:induction false} BucketExactly(b: Bucket)
    ensures var error := CheckBucket()(b);
      && (error == None <==> (forall text | text in {b.key, b.unit} :: IsIdentifier(text))
                             && (b.includedIn == None || IsIdentifier(b.includedIn.value)))
      && error != Some(RangeError)
  {
  }
}
