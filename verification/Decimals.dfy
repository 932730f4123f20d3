/** Canonical decimal numerals: no sign and no leading zero. Texts are UTF-16 code units. */
module Decimals {

  const ZERO: int := '0' as int

  predicate IsDigit(u: int) { ZERO <= u <= ZERO + 9 }

  predicate AllDigits(s: seq<int>) { forall i :: 0 <= i < |s| ==> IsDigit(s[i]) }

  predicate IsNumeral(s: seq<int>) {
    s != [] && AllDigits(s) && (s[0] == ZERO ==> |s| == 1)
  }

  function Value(s: seq<int>): int {
    if s == [] then 0 else Value(s[..|s| - 1]) * 10 + (s[|s| - 1] - ZERO)
  }

  function Numeral(n: nat): seq<int> {
    if n < 10 then [ZERO + n] else Numeral(n / 10) + [ZERO + n % 10]
  }

  lemma {:induction false} ValueIsNatural(s: seq<int>)
    requires AllDigits(s)
    ensures 0 <= Value(s) && (s != [] && s[0] != ZERO ==> 0 < Value(s))
  {
    if s != [] { ValueIsNatural(s[..|s| - 1]); }
  }

  lemma {:induction false} LastDigit(q: nat, d: nat)
    requires d < 10
    ensures (q * 10 + d) / 10 == q && (q * 10 + d) % 10 == d
  {
  }

  lemma {:induction false} AppendDigit(init: seq<int>, last: int)
    ensures Value(init + [last]) == Value(init) * 10 + (last - ZERO)
  {
    assert (init + [last])[..|init|] == init;
  }

  lemma {:induction false} NumeralPrefix(init: seq<int>, last: int)
    requires init != [] && IsNumeral(init + [last])
    ensures IsNumeral(init) && init[0] != ZERO && IsDigit(last)
  {
    assert (init + [last])[0] == init[0] && (init + [last])[|init|] == last;
    forall i | 0 <= i < |init| ensures IsDigit(init[i]) { assert (init + [last])[i] == init[i]; }
  }

  /** A numeral is the only one of its value. */
  lemma {:induction false} NumeralOfValue(s: seq<int>)
    requires IsNumeral(s)
    ensures 0 <= Value(s) && Numeral(Value(s)) == s
  {
    var init, last := s[..|s| - 1], s[|s| - 1];
    assert s == init + [last];
    AppendDigit(init, last);
    if init == [] {
      assert Value(init) == 0;
    } else {
      NumeralPrefix(init, last);
      NumeralOfValue(init);
      ValueIsNatural(init);
      LastDigit(Value(init), last - ZERO);
    }
  }

  lemma {:induction false} ValueOfNumeral(n: nat)
    ensures IsNumeral(Numeral(n)) && Value(Numeral(n)) == n
    ensures n > 0 ==> Numeral(n)[0] != ZERO
  {
    if n >= 10 {
      ValueOfNumeral(n / 10);
      assert Numeral(n)[..|Numeral(n)| - 1] == Numeral(n / 10);
    } else {
      assert Numeral(n)[..0] == [];
    }
  }
}
