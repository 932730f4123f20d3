/** The text of a SHA-256 digest: 64 lower-case hexadecimal digits, as characters or as code units. */
module Digests {

  const DIGEST_LENGTH := 64

  predicate IsHexUnit(u: int) {
    '0' as int <= u <= '9' as int || 'a' as int <= u <= 'f' as int
  }

  predicate IsDigestText(units: seq<int>) {
    |units| == DIGEST_LENGTH && forall k :: 0 <= k < |units| ==> IsHexUnit(units[k])
  }

  predicate IsDigest(text: string) {
    IsDigestText(seq(|text|, k requires 0 <= k < |text| => text[k] as int))
  }
}
