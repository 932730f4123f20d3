/** The identity header: "u1." and the unpadded base64url form of the identity's UTF-8 bytes. */
module IdentityHeader {
  import opened Outcomes
  import opened Unicode
  import opened Alphabets

  datatype IdentityKind = TenantIdentity | SubjectIdentity

  function MaxPoints(kind: IdentityKind): nat { if kind.TenantIdentity? then 191 else 255 }
  function MaxWire(kind: IdentityKind): nat { if kind.TenantIdentity? then 1022 else 1363 }

  /** What assertBillingIdentity lets through. */
  predicate IsIdentity(value: JsString, kind: IdentityKind) {
    && value != [] && |Points(value)| <= MaxPoints(kind)
    && forall i :: 0 <= i < |Points(value)| ==> Points(value)[i] != 0 && !IsSurrogate(Points(value)[i])
  }

  // ----- base64url without padding, section 5 of RFC 4648 -----

  function Letter(d: int): int {
    if d < 26 then 'A' as int + d
    else if d < 52 then 'a' as int + (d - 26)
    else if d < 62 then '0' as int + (d - 52)
    else if d == 62 then '-' as int
    else '_' as int
  }

  predicate IsLetter(c: int) {
    'A' as int <= c <= 'Z' as int || 'a' as int <= c <= 'z' as int || '0' as int <= c <= '9' as int
    || c == '-' as int || c == '_' as int
  }

  function Digit(c: int): int {
    if 'A' as int <= c <= 'Z' as int then c - 'A' as int
    else if 'a' as int <= c <= 'z' as int then c - 'a' as int + 26
    else if '0' as int <= c <= '9' as int then c - '0' as int + 52
    else if c == '-' as int then 62
    else 63
  }

  // the six-bit groups of three bytes, and the bytes of four groups
  function First6(a: int): int { a / 4 }
  function Second6(a: int, b: int): int { a % 4 * 16 + b / 16 }
  function Third6(b: int, c: int): int { b % 16 * 4 + c / 64 }
  function Last6(c: int): int { c % 64 }
  function First8(p: int, q: int): int { p * 4 + q / 16 }
  function Second8(q: int, r: int): int { q % 16 * 16 + r / 4 }
  function Third8(r: int, s: int): int { r % 4 * 64 + s }

  function Encode64(bytes: seq<int>): JsString {
    if bytes == [] then []
    else if |bytes| == 1 then [Letter(First6(bytes[0])), Letter(Second6(bytes[0], 0))]
    else if |bytes| == 2
    then [Letter(First6(bytes[0])), Letter(Second6(bytes[0], bytes[1])), Letter(Third6(bytes[1], 0))]
    else [Letter(First6(bytes[0])), Letter(Second6(bytes[0], bytes[1])),
          Letter(Third6(bytes[1], bytes[2])), Letter(Last6(bytes[2]))] + Encode64(bytes[3..])
  }

  /** The lenient decoder: spare bits are dropped, and so is a single left-over letter. */
  function Decode64(body: JsString): seq<int> {
    if |body| < 2 then []
    else if |body| == 2 then [First8(Digit(body[0]), Digit(body[1]))]
    else if |body| == 3 then [First8(Digit(body[0]), Digit(body[1])), Second8(Digit(body[1]), Digit(body[2]))]
    else [First8(Digit(body[0]), Digit(body[1])), Second8(Digit(body[1]), Digit(body[2])),
          Third8(Digit(body[2]), Digit(body[3]))] + Decode64(body[4..])
  }

  predicate AllLetters(body: JsString) {
    forall i :: 0 <= i < |body| ==> IsLetter(body[i])
  }

  const PREFIX: JsString := ['u' as int, '1' as int, '.' as int]

  function EncodeHeader(value: JsString, kind: IdentityKind): Option<JsString> {
    if !IsIdentity(value, kind) then None else Some(PREFIX + Encode64(Encode(Points(value))))
  }

  function DecodeHeader(wire: JsString, kind: IdentityKind): Option<JsString> {
    if |wire| < 5 || |wire| > MaxWire(kind) || wire[..3] != PREFIX || !AllLetters(wire[3..]) then None
    else
      var bytes := Decode64(wire[3..]);
      if Encode64(bytes) != wire[3..] then None
      else
        match Decode(bytes)
        case None => None
        case Some(points) =>
          var value := Units(points);
          if !IsIdentity(value, kind) || Encode(Points(value)) != bytes then None else Some(value)
  }

  // ----- base64url round trips -----

  lemma {:induction false} DigitOfLetter(d: int)
    requires 0 <= d < 64
    ensures IsLetter(Letter(d)) && Digit(Letter(d)) == d
  {
  }

  lemma {:induction false} LetterOfDigit(c: int)
    requires IsLetter(c)
    ensures 0 <= Digit(c) < 64 && Letter(Digit(c)) == c
  {
  }

  lemma {:induction false} BytesOfGroups(a: int, b: int, c: int)
    requires IsByte(a) && IsByte(b) && IsByte(c)
    ensures 0 <= First6(a) < 64 && 0 <= Second6(a, b) < 64 && 0 <= Third6(b, c) < 64 && 0 <= Last6(c) < 64
    ensures First8(First6(a), Second6(a, b)) == a
    ensures Second8(Second6(a, b), Third6(b, c)) == b
    ensures Third8(Third6(b, c), Last6(c)) == c
  {
  }

  lemma {:induction false} GroupsOfBytes(p: int, q: int, r: int, s: int)
    requires 0 <= p < 64 && 0 <= q < 64 && 0 <= r < 64 && 0 <= s < 64
    ensures IsByte(First8(p, q)) && IsByte(Second8(q, r)) && IsByte(Third8(r, s))
    ensures First6(First8(p, q)) == p
    ensures Second6(First8(p, q), Second8(q, r)) == q
    ensures Third6(Second8(q, r), Third8(r, s)) == r
    ensures Last6(Third8(r, s)) == s
    ensures Second6(First8(p, q), 0) == q <==> q % 16 == 0
    ensures Third6(Second8(q, r), 0) == r <==> r % 4 == 0
  {
  }

  lemma {:induction false} EncodeGroup(a: int, b: int, c: int, rest: seq<int>)
    ensures Encode64([a, b, c] + rest)
         == [Letter(First6(a)), Letter(Second6(a, b)), Letter(Third6(b, c)), Letter(Last6(c))] + Encode64(rest)
  {
    assert ([a, b, c] + rest)[3..] == rest;
  }

  lemma {:induction false} DecodeGroup(w: int, x: int, y: int, z: int, rest: JsString)
    ensures Decode64([w, x, y, z] + rest)
         == [First8(Digit(w), Digit(x)), Second8(Digit(x), Digit(y)), Third8(Digit(y), Digit(z))] + Decode64(rest)
  {
    assert ([w, x, y, z] + rest)[4..] == rest;
  }

  predicate Is6(d: int) { 0 <= d < 64 }

  lemma {:induction false} LettersDecode(p: int, q: int, r: int, s: int, rest: JsString)
    requires Is6(p) && Is6(q) && Is6(r) && Is6(s)
    ensures AllLetters([Letter(p), Letter(q), Letter(r), Letter(s)])
    ensures Decode64([Letter(p), Letter(q), Letter(r), Letter(s)] + rest)
         == [First8(p, q), Second8(q, r), Third8(r, s)] + Decode64(rest)
    ensures Decode64([Letter(p), Letter(q), Letter(r)]) == [First8(p, q), Second8(q, r)]
    ensures Decode64([Letter(p), Letter(q)]) == [First8(p, q)]
  {
    DigitOfLetter(p);
    DigitOfLetter(q);
    DigitOfLetter(r);
    DigitOfLetter(s);
    DecodeGroup(Letter(p), Letter(q), Letter(r), Letter(s), rest);
  }

  /** One group of three bytes goes through the letters unchanged. */
  lemma {:induction false} GroupRoundTrip(a: int, b: int, c: int, rest: JsString)
    requires IsByte(a) && IsByte(b) && IsByte(c)
    ensures var letters := [Letter(First6(a)), Letter(Second6(a, b)), Letter(Third6(b, c)), Letter(Last6(c))];
            AllLetters(letters) && Decode64(letters + rest) == [a, b, c] + Decode64(rest)
  {
    BytesOfGroups(a, b, c);
    LettersDecode(First6(a), Second6(a, b), Third6(b, c), Last6(c), rest);
  }

  lemma {:induction false} LettersConcat(a: JsString, b: JsString)
    ensures AllLetters(a + b) <==> AllLetters(a) && AllLetters(b)
  {
    if AllLetters(a + b) {
      assert forall i :: 0 <= i < |a| ==> a[i] == (a + b)[i];
      assert forall i :: 0 <= i < |b| ==> b[i] == (a + b)[|a| + i];
    }
  }

  lemma {:induction false} Decode64OfEncode64(bytes: seq<int>)
    requires AllBytes(bytes)
    ensures AllLetters(Encode64(bytes)) && Decode64(Encode64(bytes)) == bytes
    ensures |Encode64(bytes)| == (4 * |bytes| + 2) / 3
  {
    if |bytes| >= 3 {
      var a, b, c, rest := bytes[0], bytes[1], bytes[2], bytes[3..];
      assert bytes == [a, b, c] + rest;
      assert IsByte(a) && IsByte(b) && IsByte(c);
      Decode64OfEncode64(rest);
      EncodeGroup(a, b, c, rest);
      GroupRoundTrip(a, b, c, Encode64(rest));
      LettersConcat([Letter(First6(a)), Letter(Second6(a, b)), Letter(Third6(b, c)), Letter(Last6(c))], Encode64(rest));
    } else if bytes != [] {
      Decode64OfShort(bytes);
    }
  }

  lemma {:induction false} Decode64OfShort(bytes: seq<int>)
    requires AllBytes(bytes) && 1 <= |bytes| <= 2
    ensures AllLetters(Encode64(bytes)) && Decode64(Encode64(bytes)) == bytes && |Encode64(bytes)| == |bytes| + 1
  {
    var a := bytes[0];
    assert IsByte(a);
    if |bytes| == 1 {
      assert bytes == [a];
      OneByte(a);
    } else {
      var b := bytes[1];
      assert IsByte(b) && bytes == [a, b];
      TwoBytesEncoded(a, b);
    }
  }

  lemma {:induction false} OneByte(a: int)
    requires IsByte(a)
    ensures AllLetters(Encode64([a])) && Decode64(Encode64([a])) == [a]
  {
    OneByteGroups(a);
    LettersDecode(First6(a), Second6(a, 0), 0, 0, []);
    DigitOfLetter(First6(a));
    DigitOfLetter(Second6(a, 0));
  }

  lemma {:induction false} OneByteGroups(a: int)
    requires IsByte(a)
    ensures Is6(First6(a)) && Is6(Second6(a, 0)) && First8(First6(a), Second6(a, 0)) == a
  {
  }

  lemma {:induction false} TwoBytesEncoded(a: int, b: int)
    requires IsByte(a) && IsByte(b)
    ensures AllLetters(Encode64([a, b])) && Decode64(Encode64([a, b])) == [a, b]
  {
    BytesOfGroups(a, b, 0);
    LettersDecode(First6(a), Second6(a, b), Third6(b, 0), 0, []);
    LettersConcat([Letter(First6(a)), Letter(Second6(a, b)), Letter(Third6(b, 0))], [Letter(0)]);
    assert [Letter(First6(a)), Letter(Second6(a, b)), Letter(Third6(b, 0))] + [Letter(0)]
        == [Letter(First6(a)), Letter(Second6(a, b)), Letter(Third6(b, 0)), Letter(0)];
  }

  /** A body is canonical when it is what its own bytes encode to. */
  predicate Canonical(body: JsString) {
    Encode64(Decode64(body)) == body
  }

  /** The letters whose spare bits are zero: four of them, or two. */
  predicate EndsTwo(c: int) { IsLetter(c) && Digit(c) % 16 == 0 }
  predicate EndsThree(c: int) { IsLetter(c) && Digit(c) % 4 == 0 }

  /** Whole groups of four letters, then nothing, two or three letters with zero spare bits. */
  predicate Grouped(body: JsString) {
    if |body| >= 4 then AllLetters(body[..4]) && Grouped(body[4..])
    else body == [] || (|body| == 2 && IsLetter(body[0]) && EndsTwo(body[1]))
         || (|body| == 3 && IsLetter(body[0]) && IsLetter(body[1]) && EndsThree(body[2]))
  }

  /** A whole group of letters is always canonical. */
  lemma {:induction false} GroupOfFour(w: int, x: int, y: int, z: int, rest: JsString)
    requires IsLetter(w) && IsLetter(x) && IsLetter(y) && IsLetter(z)
    ensures Encode64(Decode64([w, x, y, z] + rest)) == [w, x, y, z] + Encode64(Decode64(rest))
  {
    LetterOfDigit(w);
    LetterOfDigit(x);
    LetterOfDigit(y);
    LetterOfDigit(z);
    GroupsOfBytes(Digit(w), Digit(x), Digit(y), Digit(z));
    DecodeGroup(w, x, y, z, rest);
    EncodeGroup(First8(Digit(w), Digit(x)), Second8(Digit(x), Digit(y)), Third8(Digit(y), Digit(z)), Decode64(rest));
  }

  lemma {:induction false} GroupOfThree(w: int, x: int, y: int)
    requires IsLetter(w) && IsLetter(x) && IsLetter(y)
    ensures Canonical([w, x, y]) <==> EndsThree(y)
  {
    LetterOfDigit(w);
    LetterOfDigit(x);
    LetterOfDigit(y);
    ThreeAgain(Digit(w), Digit(x), Digit(y));
    SameLetter(Third6(Second8(Digit(x), Digit(y)), 0), y);
  }

  lemma {:induction false} ThreeAgain(p: int, q: int, r: int)
    requires Is6(p) && Is6(q) && Is6(r)
    ensures Encode64([First8(p, q), Second8(q, r)]) == [Letter(p), Letter(q), Letter(Third6(Second8(q, r), 0))]
    ensures Is6(Third6(Second8(q, r), 0)) && (Third6(Second8(q, r), 0) == r <==> r % 4 == 0)
  {
    GroupsOfBytes(p, q, r, 0);
    BytesOfGroups(First8(p, q), Second8(q, r), 0);
  }

  lemma {:induction false} GroupOfTwo(w: int, x: int)
    requires IsLetter(w) && IsLetter(x)
    ensures Canonical([w, x]) <==> EndsTwo(x)
  {
    LetterOfDigit(w);
    LetterOfDigit(x);
    TwoAgain(Digit(w), Digit(x));
    SameLetter(Second6(First8(Digit(w), Digit(x)), 0), x);
  }

  lemma {:induction false} TwoAgain(p: int, q: int)
    requires Is6(p) && Is6(q)
    ensures Encode64([First8(p, q)]) == [Letter(p), Letter(Second6(First8(p, q), 0))]
    ensures Is6(Second6(First8(p, q), 0)) && (Second6(First8(p, q), 0) == q <==> q % 16 == 0)
  {
    SpareBitsOfTwo(p, q);
  }

  lemma {:induction false} SpareBitsOfTwo(p: int, q: int)
    requires Is6(p) && Is6(q)
    ensures First6(First8(p, q)) == p && Second6(First8(p, q), 0) == q / 16 * 16
  {
  }

  lemma {:induction false} SameLetter(d: int, c: int)
    requires 0 <= d < 64 && IsLetter(c)
    ensures Letter(d) == c <==> d == Digit(c)
  {
    DigitOfLetter(d);
    LetterOfDigit(c);
  }

  /** The letters that survive re-encoding are exactly the grouped ones. */
  lemma {:induction false} CanonicalIsGrouped(body: JsString)
    requires AllLetters(body)
    ensures Canonical(body) <==> Grouped(body)
  {
    if |body| >= 4 {
      var rest := body[4..];
      assert body == [body[0], body[1], body[2], body[3]] + rest;
      LettersConcat(body[..4], rest);
      assert body == body[..4] + rest;
      CanonicalIsGrouped(rest);
      GroupOfFour(body[0], body[1], body[2], body[3], rest);
      var again := Encode64(Decode64(rest));
      assert [body[0], body[1], body[2], body[3]] + again == body ==> again == body[4..];
    } else if |body| == 3 {
      assert body == [body[0], body[1], body[2]];
      GroupOfThree(body[0], body[1], body[2]);
    } else if |body| == 2 {
      assert body == [body[0], body[1]];
      GroupOfTwo(body[0], body[1]);
    } else if |body| == 1 {
      assert Encode64(Decode64(body)) == [];
    }
  }

  // ----- the published pattern -----

  /** [AQgw] and [AEIMQUYcgkosw048], as the pattern lists them. */
  predicate InTwoClass(c: int) {
    c == 'A' as int || c == 'Q' as int || c == 'g' as int || c == 'w' as int
  }

  predicate InThreeClass(c: int) {
    c == 'A' as int || c == 'E' as int || c == 'I' as int || c == 'M' as int
    || c == 'Q' as int || c == 'U' as int || c == 'Y' as int || c == 'c' as int
    || c == 'g' as int || c == 'k' as int || c == 'o' as int || c == 's' as int
    || c == 'w' as int || c == '0' as int || c == '4' as int || c == '8' as int
  }

  /** The optional last group: two letters and one of sixteen, or one letter and one of four. */
  predicate LastGroup(tail: JsString) {
    || tail == []
    || (|tail| == 3 && IsLetter(tail[0]) && IsLetter(tail[1]) && InThreeClass(tail[2]))
    || (|tail| == 2 && IsLetter(tail[0]) && InTwoClass(tail[1]))
  }

  /** k groups of four letters and then the last group. */
  predicate SplitsAt(body: JsString, k: nat) {
    4 * k <= |body| && AllLetters(body[..4 * k]) && LastGroup(body[4 * k..])
  }

  /** The pattern of the contract: prefix, a letter ahead, any number of groups, the last group. */
  ghost predicate MatchesPattern(wire: JsString) {
    && |wire| > 3 && wire[..3] == PREFIX && IsLetter(wire[3])
    && exists k: nat :: SplitsAt(wire[3..], k)
  }

  lemma {:induction false} ClassesAreSpareBits(c: int)
    ensures InTwoClass(c) <==> EndsTwo(c)
    ensures InThreeClass(c) <==> EndsThree(c)
  {
  }

  lemma {:induction false} GroupedSplits(body: JsString)
    requires Grouped(body)
    ensures AllLetters(body) && exists k: nat :: SplitsAt(body, k)
  {
    if |body| >= 4 {
      var rest := body[4..];
      GroupedSplits(rest);
      var k: nat :| SplitsAt(rest, k);
      assert body[..4 * (k + 1)] == body[..4] + rest[..4 * k];
      assert body[4 * (k + 1)..] == rest[4 * k..];
      assert body == body[..4] + rest;
      assert SplitsAt(body, k + 1);
    } else {
      if |body| == 2 { ClassesAreSpareBits(body[1]); }
      if |body| == 3 { ClassesAreSpareBits(body[2]); }
      assert body[4 * 0..] == body && body[..4 * 0] == [];
      assert SplitsAt(body, 0);
    }
  }

  lemma {:induction false} SplitsGrouped(body: JsString, k: nat)
    requires SplitsAt(body, k)
    ensures Grouped(body)
    decreases k
  {
    if k > 0 {
      var rest := body[4..];
      assert body[..4] == body[..4 * k][..4];
      assert rest[..4 * (k - 1)] == body[..4 * k][4..];
      assert rest[4 * (k - 1)..] == body[4 * k..];
      SplitsGrouped(rest, k - 1);
    } else {
      assert body[4 * 0..] == body;
      if |body| == 2 { ClassesAreSpareBits(body[1]); }
      if |body| == 3 { ClassesAreSpareBits(body[2]); }
    }
  }

  /** The published pattern accepts exactly the prefixed, non-empty bodies of base64url letters
      that survive the decoder's re-encode check. */
  lemma {:induction false} PatternIsReencodeCheck(wire: JsString)
    ensures MatchesPattern(wire) <==>
              |wire| > 3 && wire[..3] == PREFIX && AllLetters(wire[3..]) && Canonical(wire[3..])
  {
    if |wire| > 3 {
      var body := wire[3..];
      assert body[0] == wire[3];
      if MatchesPattern(wire) {
        var k: nat :| SplitsAt(body, k);
        SplitsGrouped(body, k);
        GroupedSplits(body);
        CanonicalIsGrouped(body);
      }
      if AllLetters(body) && Canonical(body) {
        CanonicalIsGrouped(body);
        GroupedSplits(body);
      }
    }
  }

  // ----- the header -----

  lemma {:induction false} IdentityIsWellFormed(value: JsString, kind: IdentityKind)
    requires AllUnits(value) && IsIdentity(value, kind)
    ensures AllScalars(Points(value)) && 0 < |Points(value)|
  {
    PointsInRange(value);
  }

  lemma {:induction false} PointsInRange(s: JsString)
    requires AllUnits(s)
    ensures forall i :: 0 <= i < |Points(s)| ==> 0 <= Points(s)[i] < 0x11_0000
  {
    if s != [] {
      var (p, n) := FirstPoint(s);
      assert IsUnit(s[0]);
      PointsInRange(s[n..]);
      assert Points(s) == [p] + Points(s[n..]);
    }
  }

  /** Encoding an identity gives a wire within the bounds that decodes to the identity, and the
      contract accepts it. */
  lemma {:induction false} DecodeOfEncodeHeader(value: JsString, kind: IdentityKind)
    requires AllUnits(value) && IsIdentity(value, kind)
    ensures EncodeHeader(value, kind).Some?
    ensures var wire := EncodeHeader(value, kind).value;
            && 5 <= |wire| <= MaxWire(kind) && MatchesPattern(wire)
            && DecodeHeader(wire, kind) == Some(value)
  {
    var points := Points(value);
    var bytes := Encode(points);
    var body := Encode64(bytes);
    var wire := PREFIX + body;
    IdentityIsWellFormed(value, kind);
    DecodeOfEncode(points);
    Decode64OfEncode64(bytes);
    UnitsOfPoints(value);
    assert wire[3..] == body && wire[..3] == PREFIX;
    PatternIsReencodeCheck(wire);
  }

  /** A wire is accepted only if it is the encoding of the identity it decodes to. */
  lemma {:induction false} EncodeOfDecodeHeader(wire: JsString, kind: IdentityKind)
    requires DecodeHeader(wire, kind).Some?
    ensures var value := DecodeHeader(wire, kind).value;
            AllUnits(value) && IsIdentity(value, kind) && EncodeHeader(value, kind) == Some(wire)
    ensures MatchesPattern(wire)
  {
    var bytes := Decode64(wire[3..]);
    var points := Decode(bytes).value;
    EncodeOfDecode(bytes);
    UnitsAreUnits(points);
    assert wire == PREFIX + wire[3..];
    PatternIsReencodeCheck(wire);
  }

  /** The re-encoding check on the bytes that were just decoded can never fail. */
  lemma {:induction false} LastCheckIsRedundant(bytes: seq<int>)
    requires Decode(bytes).Some?
    ensures Encode(Points(Units(Decode(bytes).value))) == bytes
  {
    EncodeOfDecode(bytes);
    PointsOfUnits(Decode(bytes).value);
  }

  /** The wire bounds are attained: by an identity of as many supplementary characters as allowed. */
  lemma {:induction false} BoundsAreTight(kind: IdentityKind)
    ensures exists value: JsString ::
              AllUnits(value) && IsIdentity(value, kind) && |EncodeHeader(value, kind).value| == MaxWire(kind)
  {
    var points := seq(MaxPoints(kind), _ => 0x1_0000);
    var value := Units(points);
    PointsOfUnits(points);
    UnitsAreUnits(points);
    assert value != [] by { assert Points([]) == []; }
    assert IsIdentity(value, kind);
    assert |EncodeHeader(value, kind).value| == MaxWire(kind) by { WidestWire(points); }
  }

  lemma {:induction false} WidestWire(points: seq<int>)
    requires forall i :: 0 <= i < |points| ==> points[i] == 0x1_0000
    ensures |PREFIX + Encode64(Encode(points))| == 3 + (16 * |points| + 2) / 3
  {
    FourBytesEach(points);
    DecodeOfEncode(points);
    Decode64OfEncode64(Encode(points));
  }

  lemma {:induction false} FourBytesEach(points: seq<int>)
    requires forall i :: 0 <= i < |points| ==> points[i] == 0x1_0000
    ensures |Encode(points)| == 4 * |points|
  {
    if points != [] {
      assert points[0] == 0x1_0000;
      FourBytesEach(points[1..]);
    }
  }

  // ----- the letters of the wire -----

  /** The letter of each six bits is that of the alphabet and is read back as them, and the wire
      starts with the units of "u1.". */
  lemma {:induction false} LetterIsAlphabet(d: int)
    requires 0 <= d < 64
    ensures var letter := if d < 26 then UPPER[d] else if d < 52 then LOWER[d - 26]
                          else if d < 62 then DIGITS[d - 52] else "-_"[d - 62];
            Letter(d) == letter as int && Digit(letter as int) == d
    ensures PREFIX == [117, 49, 46]
  {
    if d < 26 { UpperRun(d); } else if d < 52 { LowerRun(d - 26); } else if d < 62 { DigitRun(d - 52); }
  }

  /** An identity in code units: not empty, at most 191 or 255 points, no unit 0 and no unpaired
      surrogate. */
  lemma {:induction false} IdentityByUnits(value: JsString, kind: IdentityKind)
    ensures IsIdentity(value, kind)
            <==> && value != [] && |Points(value)| <= (if kind == TenantIdentity then 191 else 255)
                 && (forall k :: 0 <= k < |value| ==> value[k] != 0)
                 && forall i :: 0 <= i < |Points(value)| ==> !(0xD800 <= Points(value)[i] <= 0xDFFF)
  {
    NonzeroPoints(value);
  }
}
