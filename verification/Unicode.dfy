/** Texts as the program holds them, sequences of UTF-16 code units, and as they travel, UTF-8. */
module Unicode {
  import opened Outcomes

  /** A string of UTF-16 code units; a unit may be an unpaired surrogate. */
  type JsString = seq<int>

  predicate IsUnit(u: int) { 0 <= u < 0x1_0000 }
  predicate IsHigh(u: int) { 0xD800 <= u < 0xDC00 }
  predicate IsLow(u: int) { 0xDC00 <= u < 0xE000 }
  predicate IsSurrogate(p: int) { 0xD800 <= p < 0xE000 }
  predicate IsScalar(p: int) { 0 <= p < 0x11_0000 && !IsSurrogate(p) }

  predicate AllUnits(s: JsString) { forall i :: 0 <= i < |s| ==> IsUnit(s[i]) }
  predicate AllScalars(points: seq<int>) { forall i :: 0 <= i < |points| ==> IsScalar(points[i]) }

  // ----- code points and code units -----

  function UnitsOf(p: int): JsString {
    if p < 0x1_0000 then [p] else [0xD800 + (p - 0x1_0000) / 0x400, 0xDC00 + (p - 0x1_0000) % 0x400]
  }

  function Units(points: seq<int>): JsString {
    if points == [] then [] else UnitsOf(points[0]) + Units(points[1..])
  }

  /** The first code point of a text and the number of units it takes. */
  function FirstPoint(s: JsString): (r: (int, nat))
    requires s != []
    ensures 1 <= r.1 <= |s|
  {
    if |s| > 1 && IsHigh(s[0]) && IsLow(s[1])
    then (0x1_0000 + (s[0] - 0xD800) * 0x400 + (s[1] - 0xDC00), 2)
    else (s[0], 1)
  }

  /** Code points as string iteration yields them: an unpaired surrogate is a point of its own. */
  function Points(s: JsString): seq<int> {
    if s == [] then [] else [FirstPoint(s).0] + Points(s[FirstPoint(s).1..])
  }

  /** A text has a point 0 only where it has a unit 0. */
  lemma {:induction false} NonzeroPoints(s: JsString)
    ensures (forall i :: 0 <= i < |Points(s)| ==> Points(s)[i] != 0) <==> forall k :: 0 <= k < |s| ==> s[k] != 0
  {
    if s != [] {
      var n := FirstPoint(s).1;
      var rest := Points(s[n..]);
      NonzeroPoints(s[n..]);
      assert Points(s)[0] == FirstPoint(s).0;
      assert forall i :: 0 <= i < |rest| ==> rest[i] == Points(s)[i + 1];
      assert forall i :: 0 < i < |Points(s)| ==> Points(s)[i] == rest[i - 1];
      assert forall k :: n <= k < |s| ==> s[k] == s[n..][k - n];
      assert forall k :: 0 <= k < |s[n..]| ==> s[n..][k] == s[n + k];
    }
  }

  lemma {:induction false} PairOfUnits(high: int, low: int)
    requires IsHigh(high) && IsLow(low)
    ensures UnitsOf(0x1_0000 + (high - 0xD800) * 0x400 + (low - 0xDC00)) == [high, low]
  {
  }

  lemma {:induction false} FirstUnits(s: JsString)
    requires s != [] && IsUnit(s[0])
    ensures UnitsOf(FirstPoint(s).0) == s[..FirstPoint(s).1]
  {
    if FirstPoint(s).1 == 2 {
      PairOfUnits(s[0], s[1]);
      assert s[..2] == [s[0], s[1]];
    } else {
      assert s[..1] == [s[0]];
    }
  }

  lemma {:induction false} UnitsOfPoints(s: JsString)
    requires AllUnits(s)
    ensures Units(Points(s)) == s
  {
    if s != [] {
      var (p, n) := FirstPoint(s);
      assert IsUnit(s[0]);
      UnitsOfPoints(s[n..]);
      FirstUnits(s);
      assert s == s[..n] + s[n..];
      assert Points(s) == [p] + Points(s[n..]);
      assert ([p] + Points(s[n..]))[1..] == Points(s[n..]);
    }
  }

  lemma {:induction false} PointsOfUnits(points: seq<int>)
    requires AllScalars(points)
    ensures Points(Units(points)) == points
  {
    if points != [] {
      var first, rest := UnitsOf(points[0]), points[1..];
      PointsOfUnits(rest);
      var s := first + Units(rest);
      assert IsScalar(points[0]);
      assert s[|first|..] == Units(rest);
      assert FirstPoint(s) == (points[0], |first|);
    }
  }

  lemma {:induction false} UnitsAreUnits(points: seq<int>)
    requires AllScalars(points)
    ensures AllUnits(Units(points)) && |Units(points)| >= |points|
  {
    if points != [] {
      assert IsScalar(points[0]);
      UnitsAreUnits(points[1..]);
    }
  }

  /** A text without unpaired surrogates. */
  predicate WellFormed(s: JsString) {
    AllUnits(s) && AllScalars(Points(s))
  }

  lemma {:induction false} WellFormedTail(a: JsString)
    requires WellFormed(a) && a != []
    ensures IsScalar(FirstPoint(a).0) && WellFormed(a[FirstPoint(a).1..])
  {
    var (p, n) := FirstPoint(a);
    assert Points(a) == [p] + Points(a[n..]);
    assert IsScalar(Points(a)[0]);
    assert forall i :: 0 <= i < |Points(a[n..])| ==> Points(a[n..])[i] == Points(a)[i + 1];
  }

  lemma {:induction false} FirstOfConcat(a: JsString, b: JsString)
    requires a != [] && IsScalar(FirstPoint(a).0)
    ensures FirstPoint(a + b) == FirstPoint(a)
    ensures (a + b)[FirstPoint(a).1..] == a[FirstPoint(a).1..] + b
  {
    assert (a + b)[0] == a[0];
    if |a| > 1 { assert (a + b)[1] == a[1]; }
  }

  lemma {:induction false} PointsConcat(a: JsString, b: JsString)
    requires WellFormed(a) && AllUnits(b)
    ensures Points(a + b) == Points(a) + Points(b)
  {
    if a == [] {
      assert a + b == b;
    } else {
      var (p, n) := FirstPoint(a);
      WellFormedTail(a);
      FirstOfConcat(a, b);
      PointsConcat(a[n..], b);
      assert Points(a + b) == [p] + (Points(a[n..]) + Points(b));
      assert Points(a) == [p] + Points(a[n..]);
    }
  }

  lemma {:induction false} WellFormedConcat(a: JsString, b: JsString)
    requires WellFormed(a) && WellFormed(b)
    ensures WellFormed(a + b)
  {
    PointsConcat(a, b);
  }

  // ----- UTF-8, section 3 of RFC 3629 -----

  predicate IsByte(b: int) { 0 <= b < 256 }
  predicate AllBytes(bytes: seq<int>) { forall i :: 0 <= i < |bytes| ==> IsByte(bytes[i]) }

  /** The last six bits of p, as a continuation byte, and the bits before them. */
  function Tail(p: int): int { 0x80 + p % 0x40 }
  function Shift(p: int): int { p / 0x40 }

  function EncodePoint(p: int): seq<int> {
    if p < 0x80 then [p]
    else if p < 0x800 then [0xC0 + Shift(p), Tail(p)]
    else if p < 0x1_0000 then [0xE0 + Shift(Shift(p)), Tail(Shift(p)), Tail(p)]
    else [0xF0 + Shift(Shift(Shift(p))), Tail(Shift(Shift(p))), Tail(Shift(p)), Tail(p)]
  }

  function Encode(points: seq<int>): seq<int> {
    if points == [] then [] else EncodePoint(points[0]) + Encode(points[1..])
  }

  predicate IsTail(b: int) { 0x80 <= b < 0xC0 }

  /** The bits of `high` followed by those of a continuation byte. */
  function Join(high: int, tail: int): int { high * 0x40 + (tail - 0x80) }

  lemma {:induction false} JoinOfShift(p: int)
    requires 0 <= p
    ensures Join(Shift(p), Tail(p)) == p && IsTail(Tail(p)) && 0 <= Shift(p)
  {
  }

  lemma {:induction false} ShiftOfJoin(high: int, tail: int)
    requires 0 <= high && IsTail(tail)
    ensures Shift(Join(high, tail)) == high && Tail(Join(high, tail)) == tail && 0 <= Join(high, tail)
  {
  }

  predicate TwoBytes(b: seq<int>) {
    |b| >= 2 && 0xC2 <= b[0] < 0xE0 && IsTail(b[1])
  }

  predicate ThreeBytes(b: seq<int>) {
    && |b| >= 3 && 0xE0 <= b[0] < 0xF0 && IsTail(b[1]) && IsTail(b[2])
    && (b[0] == 0xE0 ==> 0xA0 <= b[1]) && (b[0] == 0xED ==> b[1] < 0xA0)
  }

  predicate FourBytes(b: seq<int>) {
    && |b| >= 4 && 0xF0 <= b[0] < 0xF5 && IsTail(b[1]) && IsTail(b[2]) && IsTail(b[3])
    && (b[0] == 0xF0 ==> 0x90 <= b[1]) && (b[0] == 0xF4 ==> b[1] < 0x90)
  }

  /** The well-formed sequences of section 4: no overlong form, no surrogate, nothing above 10FFFF. */
  function DecodeFirst(b: seq<int>): (r: Option<(int, nat)>)
    requires b != []
    ensures r.Some? ==> 1 <= r.value.1 <= |b|
  {
    if 0 <= b[0] < 0x80 then Some((b[0], 1))
    else if TwoBytes(b) then Some((Join(b[0] - 0xC0, b[1]), 2))
    else if ThreeBytes(b) then Some((Join(Join(b[0] - 0xE0, b[1]), b[2]), 3))
    else if FourBytes(b) then Some((Join(Join(Join(b[0] - 0xF0, b[1]), b[2]), b[3]), 4))
    else None
  }

  /** A fatal decoder: None on the first ill-formed sequence. A byte order mark is a character. */
  function Decode(bytes: seq<int>): Option<seq<int>> {
    if bytes == [] then Some([])
    else
      match DecodeFirst(bytes)
      case None => None
      case Some((p, n)) =>
        match Decode(bytes[n..])
        case None => None
        case Some(rest) => Some([p] + rest)
  }

  lemma {:induction false} DecodeOfEncodePoint(p: int, rest: seq<int>)
    requires IsScalar(p)
    ensures 1 <= |EncodePoint(p)| <= 4 && AllBytes(EncodePoint(p))
    ensures DecodeFirst(EncodePoint(p) + rest) == Some((p, |EncodePoint(p)|))
  {
    if p < 0x80 {
      assert (EncodePoint(p) + rest)[0] == p;
    } else if p < 0x800 {
      EncodedTwo(p, rest);
    } else if p < 0x1_0000 {
      EncodedThree(p, Shift(p), Shift(Shift(p)), rest);
    } else {
      EncodedFour(p, Shift(p), Shift(Shift(p)), Shift(Shift(Shift(p))), rest);
    }
  }

  lemma {:induction false} EncodedTwo(p: int, rest: seq<int>)
    requires 0x80 <= p < 0x800
    ensures |EncodePoint(p)| == 2 && AllBytes(EncodePoint(p)) && DecodeFirst(EncodePoint(p) + rest) == Some((p, 2))
  {
    JoinOfShift(p);
    assert 2 <= Shift(p) < 0x20;
    DecodeTwo(0xC0 + Shift(p), Tail(p), rest);
  }

  lemma {:induction false} EncodedThree(p: int, q: int, r: int, rest: seq<int>)
    requires 0x800 <= p < 0x1_0000 && IsScalar(p) && q == Shift(p) && r == Shift(q)
    ensures |EncodePoint(p)| == 3 && AllBytes(EncodePoint(p)) && DecodeFirst(EncodePoint(p) + rest) == Some((p, 3))
  {
    JoinOfShift(p);
    JoinOfShift(q);
    ThreeBytesOf(p, q, r);
    DecodeThree(0xE0 + r, Tail(q), Tail(p), rest);
  }

  lemma {:induction false} EncodedFour(p: int, q: int, r: int, t: int, rest: seq<int>)
    requires 0x1_0000 <= p < 0x11_0000 && q == Shift(p) && r == Shift(q) && t == Shift(r)
    ensures |EncodePoint(p)| == 4 && AllBytes(EncodePoint(p)) && DecodeFirst(EncodePoint(p) + rest) == Some((p, 4))
  {
    JoinOfShift(p);
    JoinOfShift(q);
    JoinOfShift(r);
    FourBytesOf(p, q, r, t);
    DecodeFour(0xF0 + t, Tail(r), Tail(q), Tail(p), rest);
  }

  lemma {:induction false} DecodeTwo(x: int, y: int, rest: seq<int>)
    requires TwoBytes([x, y])
    ensures DecodeFirst([x, y] + rest) == Some((Join(x - 0xC0, y), 2))
  {
    assert ([x, y] + rest)[0] == x && ([x, y] + rest)[1] == y;
  }

  lemma {:induction false} DecodeThree(x: int, y: int, z: int, rest: seq<int>)
    requires ThreeBytes([x, y, z])
    ensures DecodeFirst([x, y, z] + rest) == Some((Join(Join(x - 0xE0, y), z), 3))
  {
    var b := [x, y, z] + rest;
    assert b[0] == x && b[1] == y && b[2] == z;
  }

  lemma {:induction false} DecodeFour(x: int, y: int, z: int, w: int, rest: seq<int>)
    requires FourBytes([x, y, z, w])
    ensures DecodeFirst([x, y, z, w] + rest) == Some((Join(Join(Join(x - 0xF0, y), z), w), 4))
  {
    var b := [x, y, z, w] + rest;
    assert b[0] == x && b[1] == y && b[2] == z && b[3] == w;
  }

  lemma {:induction false} ThreeBytesOf(p: int, q: int, r: int)
    requires 0x800 <= p < 0x1_0000 && IsScalar(p)
    requires Join(q, Tail(p)) == p && Join(r, Tail(q)) == q && IsTail(Tail(p)) && IsTail(Tail(q))
    ensures ThreeBytes([0xE0 + r, Tail(q), Tail(p)])
  {
    assert 0x20 <= q < 0x400;
    assert 0 <= r < 0x10;
    if r == 0xD { assert q < 0x360; }
  }

  lemma {:induction false} FourBytesOf(p: int, q: int, r: int, t: int)
    requires 0x1_0000 <= p < 0x11_0000
    requires Join(q, Tail(p)) == p && Join(r, Tail(q)) == q && Join(t, Tail(r)) == r
    requires IsTail(Tail(p)) && IsTail(Tail(q)) && IsTail(Tail(r))
    ensures FourBytes([0xF0 + t, Tail(r), Tail(q), Tail(p)])
  {
    assert 0x400 <= q < 0x4400;
    assert 0x10 <= r < 0x110;
    assert 0 <= t < 5;
  }

  lemma {:induction false} DecodeOfEncode(points: seq<int>)
    requires AllScalars(points)
    ensures Decode(Encode(points)) == Some(points)
    ensures AllBytes(Encode(points)) && |points| <= |Encode(points)| <= 4 * |points|
  {
    if points != [] {
      var first, rest := EncodePoint(points[0]), Encode(points[1..]);
      assert IsScalar(points[0]);
      DecodeOfEncodePoint(points[0], rest);
      DecodeOfEncode(points[1..]);
      assert (first + rest)[|first|..] == rest;
      assert points == [points[0]] + points[1..];
    }
  }

  lemma {:induction false} PointOfThree(x: int, y: int, z: int)
    requires ThreeBytes([x, y, z])
    ensures var p := Join(Join(x - 0xE0, y), z); IsScalar(p) && EncodePoint(p) == [x, y, z]
  {
    var q := Join(x - 0xE0, y);
    ShiftOfJoin(x - 0xE0, y);
    ShiftOfJoin(q, z);
    assert 0x20 <= q < 0x400 && !(0x360 <= q < 0x380);
  }

  lemma {:induction false} PointOfFour(x: int, y: int, z: int, w: int)
    requires FourBytes([x, y, z, w])
    ensures var p := Join(Join(Join(x - 0xF0, y), z), w); IsScalar(p) && EncodePoint(p) == [x, y, z, w]
  {
    var r := Join(x - 0xF0, y);
    var q := Join(r, z);
    var p := Join(q, w);
    assert 0x10 <= r < 0x110;
    assert 0x400 <= q < 0x4400;
    assert 0x1_0000 <= p < 0x11_0000;
    ShiftOfJoin(x - 0xF0, y);
    ShiftOfJoin(r, z);
    ShiftOfJoin(q, w);
    FourBytesAre(p, q, r, x - 0xF0);
  }

  lemma {:induction false} FourBytesAre(p: int, q: int, r: int, t: int)
    requires 0x1_0000 <= p && Shift(p) == q && Shift(q) == r && Shift(r) == t
    ensures EncodePoint(p) == [0xF0 + t, Tail(r), Tail(q), Tail(p)]
  {
  }

  lemma {:induction false} PointOfTwo(x: int, y: int)
    requires TwoBytes([x, y])
    ensures var p := Join(x - 0xC0, y); IsScalar(p) && EncodePoint(p) == [x, y]
  {
    ShiftOfJoin(x - 0xC0, y);
  }

  lemma {:induction false} EncodeOfDecodeFirst(b: seq<int>)
    requires b != [] && DecodeFirst(b).Some?
    ensures var (p, n) := DecodeFirst(b).value; IsScalar(p) && EncodePoint(p) == b[..n]
  {
    if 0 <= b[0] < 0x80 {
      assert b[..1] == [b[0]];
    } else if TwoBytes(b) {
      assert b == [b[0], b[1]] + b[2..] && b[..2] == [b[0], b[1]];
      DecodeTwo(b[0], b[1], b[2..]);
      PointOfTwo(b[0], b[1]);
    } else if ThreeBytes(b) {
      assert b == [b[0], b[1], b[2]] + b[3..] && b[..3] == [b[0], b[1], b[2]];
      DecodeThree(b[0], b[1], b[2], b[3..]);
      PointOfThree(b[0], b[1], b[2]);
    } else {
      assert b == [b[0], b[1], b[2], b[3]] + b[4..] && b[..4] == [b[0], b[1], b[2], b[3]];
      DecodeFour(b[0], b[1], b[2], b[3], b[4..]);
      PointOfFour(b[0], b[1], b[2], b[3]);
    }
  }

  lemma {:induction false} EncodeCons(p: int, points: seq<int>)
    requires IsScalar(p) && AllScalars(points)
    ensures AllScalars([p] + points) && Encode([p] + points) == EncodePoint(p) + Encode(points)
  {
    assert ([p] + points)[1..] == points;
  }

  /** The points, if there are any, are scalar values whose encoding is `bytes`. */
  predicate Spell(points: Option<seq<int>>, bytes: seq<int>) {
    points.Some? ==> AllScalars(points.value) && Encode(points.value) == bytes
  }

  lemma {:induction false} SpellCons(p: int, first: seq<int>, points: Option<seq<int>>, rest: seq<int>, bytes: seq<int>)
    requires IsScalar(p) && EncodePoint(p) == first && bytes == first + rest && Spell(points, rest)
    ensures Spell(if points.Some? then Some([p] + points.value) else None, bytes)
  {
    if points.Some? { EncodeCons(p, points.value); }
  }

  lemma {:induction false} DecodeIs(bytes: seq<int>)
    requires bytes != []
    ensures DecodeFirst(bytes).None? ==> Decode(bytes).None?
    ensures DecodeFirst(bytes).Some? ==>
              var (p, n) := DecodeFirst(bytes).value;
              Decode(bytes) == if Decode(bytes[n..]).Some? then Some([p] + Decode(bytes[n..]).value) else None
  {
  }

  /** The decoder accepts only what the encoder writes. */
  lemma {:induction false} EncodeOfDecode(bytes: seq<int>)
    ensures Spell(Decode(bytes), bytes)
  {
    if bytes != [] {
      DecodeIs(bytes);
      if DecodeFirst(bytes).Some? {
        var (p, n) := DecodeFirst(bytes).value;
        EncodeOfDecodeFirst(bytes);
        EncodeOfDecode(bytes[n..]);
        assert bytes == bytes[..n] + bytes[n..];
        SpellCons(p, bytes[..n], Decode(bytes[n..]), bytes[n..], bytes);
      }
    }
  }

  lemma {:induction false} EncodeConcat(a: seq<int>, b: seq<int>)
    ensures Encode(a + b) == Encode(a) + Encode(b)
  {
    if a == [] {
      assert a + b == b;
    } else {
      assert (a + b)[1..] == a[1..] + b;
      EncodeConcat(a[1..], b);
    }
  }
}
