/** The letters and digits of ASCII, written out. */
module Alphabets {

  const UPPER: string := "ABCDEFGHIJKLMNOPQRSTUVWXYZ"
  const LOWER: string := "abcdefghijklmnopqrstuvwxyz"
  const DIGITS: string := "0123456789"

  lemma {:induction false} UpperRun(d: int)
    requires 0 <= d < 26
    ensures UPPER[d] as int == 65 + d
  {
  }

  lemma {:induction false} LowerRun(d: int)
    requires 0 <= d < 26
    ensures LOWER[d] as int == 97 + d
  {
  }

  lemma {:induction false} DigitRun(d: int)
    requires 0 <= d < 10
    ensures DIGITS[d] as int == 48 + d
  {
  }

  lemma {:induction false} IsUpper(c: char)
    ensures c in UPPER <==> 'A' <= c <= 'Z'
  {
    if 'A' <= c <= 'Z' {
      UpperRun(c as int - 65);
      assert UPPER[c as int - 65] == c;
    }
  }

  lemma {:induction false} IsLower(c: char)
    ensures c in LOWER <==> 'a' <= c <= 'z'
  {
    if 'a' <= c <= 'z' {
      LowerRun(c as int - 97);
      assert LOWER[c as int - 97] == c;
    }
  }

  lemma {:induction false} IsDecimal(c: char)
    ensures c in DIGITS <==> '0' <= c <= '9'
  {
    if '0' <= c <= '9' {
      DigitRun(c as int - 48);
      assert DIGITS[c as int - 48] == c;
    }
  }
}
