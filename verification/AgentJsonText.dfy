/** The canonical form and the escapes of strings by the numbers of their code units, as section 7
    of RFC 8259 and sections 3.2.2.2 and 3.2.3 of RFC 8785 list them. */
module AgentJsonText {
  import opened Outcomes
  import opened Sorting
  import opened Unicode
  import opened AgentJson
  import opened AgentJsonCanonical

  // ----- writing strings -----

  /** No unit of the text is half of a surrogate pair without its other half. */
  predicate Paired(s: JsString) {
    forall i :: 0 <= i < |Points(s)| ==> !(0xD800 <= Points(s)[i] <= 0xDFFF)
  }

  lemma {:induction false} PairedRest(s: JsString)
    requires s != [] && Paired(s)
    ensures Paired(s[FirstPoint(s).1..])
    ensures FirstPoint(s).1 == 1 ==> !(0xD800 <= s[0] <= 0xDFFF)
  {
    var n := FirstPoint(s).1;
    assert Points(s)[0] == FirstPoint(s).0;
    assert forall i :: 0 <= i < |Points(s[n..])| ==> Points(s[n..])[i] == Points(s)[i + 1];
  }

  /** A hexadecimal digit, lower case. */
  function Digit(n: int): int {
    if n < 10 then 48 + n else 87 + n
  }

  /** The unit spelled with four digits of its value. */
  predicate SpelledInHex(u: int, text: JsString) {
    exists a, b, c, d ::
      && 0 <= a < 16 && 0 <= b < 16 && 0 <= c < 16 && 0 <= d < 16 && u == ((a * 16 + b) * 16 + c) * 16 + d
      && text == [92, 117, Digit(a), Digit(b), Digit(c), Digit(d)]
  }

  lemma {:induction false} UnicodeEscapeByNumbers(u: int)
    requires 0 <= u < 0x1_0000
    ensures SpelledInHex(u, UnicodeEscape(u))
  {
    HexDigitsMakeUp(u);
    assert UnicodeEscape(u) == [92, 117, Digit(u / 4096), Digit(u / 256 % 16), Digit(u / 16 % 16), Digit(u % 16)];
  }

  /** How a unit is escaped: 34 and 92 behind a 92; 8, 9, 10, 12 and 13 as 98, 116, 110, 102 and 114
      behind a 92; any other unit below 32 and an unpaired surrogate as 92, 117 and four digits of its
      value, which are 48 to 57 and 97 to 102; and every other unit as it is. */
  lemma {:induction false} EscapeUnitByNumbers(u: int)
    requires 0 <= u < 0x1_0000
    ensures var text := EscapeUnit(u);
            if u == 34 || u == 92 then text == [92, u]
            else if u == 8 then text == [92, 98]
            else if u == 9 then text == [92, 116]
            else if u == 10 then text == [92, 110]
            else if u == 12 then text == [92, 102]
            else if u == 13 then text == [92, 114]
            else if u < 32 || 0xD800 <= u <= 0xDFFF then SpelledInHex(u, text)
            else text == [u]
  {
    if EscapeUnit(u) == UnicodeEscape(u) { UnicodeEscapeByNumbers(u); }
  }

  /** A text is escaped unit by unit, a surrogate pair as it is. */
  lemma {:induction false} EscapeByUnits(s: JsString)
    requires s != []
    ensures Escape(s) ==
            if |s| > 1 && 0xD800 <= s[0] <= 0xDBFF && 0xDC00 <= s[1] <= 0xDFFF then [s[0], s[1]] + Escape(s[2..])
            else EscapeUnit(s[0]) + Escape(s[1..])
  {
    if FirstPoint(s).1 == 2 { assert s[..2] == [s[0], s[1]]; }
  }

  /** Printed and plain texts are the same if no unit is below 32, a quote, a backslash or an unpaired
      surrogate; in particular, a slash is never escaped. */
  lemma {:induction false} PlainPrintsAsItself(s: JsString)
    requires Paired(s) && forall i :: 0 <= i < |s| ==> 32 <= s[i] && s[i] != 34 && s[i] != 92
    ensures Escape(s) == s && Quote(s) == [34] + s + [34]
  {
    if s != [] {
      var n := FirstPoint(s).1;
      PairedRest(s);
      assert forall i :: 0 <= i < |s[n..]| ==> s[n..][i] == s[n + i];
      PlainPrintsAsItself(s[n..]);
      assert s == s[..n] + s[n..];
      if n == 1 { assert s[..1] == [s[0]]; }
    }
  }

  // ----- no shorter spelling -----

  /** The fewest units that spell a unit. */
  function Cost(u: int): nat {
    if u == 34 || u == 92 || u == 8 || u == 9 || u == 10 || u == 12 || u == 13 then 2
    else if u < 32 then 6 else 1
  }

  function TotalCost(s: JsString): nat {
    if s == [] then 0 else Cost(s[0]) + TotalCost(s[1..])
  }

  lemma {:induction false} EscapeCosts(s: JsString)
    requires Paired(s)
    ensures |Escape(s)| == TotalCost(s)
  {
    if s != [] {
      var n := FirstPoint(s).1;
      PairedRest(s);
      EscapeCosts(s[n..]);
      if n == 2 { assert s[1..][1..] == s[2..] && s[1..][0] == s[1]; }
    }
  }

  lemma {:induction false} SpellingCosts(inner: JsString)
    requires Unescape(inner).Some?
    ensures TotalCost(Unescape(inner).value) <= |inner|
  {
    if inner != [] {
      var (u, n) := UnescapeOne(inner).value;
      SpellingCosts(inner[n..]);
      var rest := Unescape(inner[n..]).value;
      assert Unescape(inner).value == [u] + rest && ([u] + rest)[1..] == rest;
      OneSpellingCosts(inner);
    }
  }

  lemma {:induction false} OneSpellingCosts(inner: JsString)
    requires inner != [] && UnescapeOne(inner).Some?
    ensures Cost(UnescapeOne(inner).value.0) <= UnescapeOne(inner).value.1
  {
  }

  /** No spelling of a text is shorter than the printed one. */
  lemma {:induction false} EscapeIsShortest(s: JsString, inner: JsString)
    requires Paired(s) && Unescape(inner) == Some(s)
    ensures |Escape(s)| <= |inner|
  {
    EscapeCosts(s);
    SpellingCosts(inner);
  }

  // ----- reading strings -----

  /** The value of a hexadecimal digit of either case, -1 for any other unit. */
  function DigitValue(c: int): int {
    if 48 <= c <= 57 then c - 48 else if 97 <= c <= 102 then c - 87 else if 65 <= c <= 70 then c - 55 else -1
  }

  /** What the next unit of a string is, by numbers: behind a 92 the units 34, 92 and 47 stand for
      themselves, 98, 102, 110, 114 and 116 for 8, 12, 10, 13 and 9, and 117 for the value of the next
      four digits; nothing else may follow a 92. Without it, any unit from 32 on but 34 is itself. */
  lemma {:induction false} UnescapeByNumbers(inner: JsString)
    requires inner != []
    ensures UnescapeOne(inner) ==
            if inner[0] != 92 then (if 32 <= inner[0] && inner[0] != 34 then Some((inner[0], 1)) else None)
            else if |inner| < 2 then None
            else
              var c := inner[1];
              if c == 34 || c == 92 || c == 47 then Some((c, 2))
              else if c == 98 then Some((8, 2))
              else if c == 102 then Some((12, 2))
              else if c == 110 then Some((10, 2))
              else if c == 114 then Some((13, 2))
              else if c == 116 then Some((9, 2))
              else if c == 117 && |inner| >= 6 && DigitValue(inner[2]) >= 0 && DigitValue(inner[3]) >= 0
                      && DigitValue(inner[4]) >= 0 && DigitValue(inner[5]) >= 0
              then Some((4096 * DigitValue(inner[2]) + 256 * DigitValue(inner[3]) + 16 * DigitValue(inner[4])
                         + DigitValue(inner[5]), 6))
              else None
  {
  }

  /** A text free of control characters and unpaired surrogates, unit by unit: all are from 32 on and
      none is 127. */
  lemma {:induction false} AdmittedByNumbers(s: JsString)
    ensures Admitted(s) <==> Paired(s) && forall i :: 0 <= i < |s| ==> 32 <= s[i] && s[i] != 127
  {
    if s != [] {
      var n := FirstPoint(s).1;
      AdmittedByNumbers(s[n..]);
      assert Points(s)[0] == FirstPoint(s).0;
      assert forall i :: 0 <= i < |Points(s[n..])| ==> Points(s[n..])[i] == Points(s)[i + 1];
      assert forall i :: 0 <= i < |s[n..]| ==> s[n..][i] == s[n + i];
      assert forall i :: 0 < i < |Points(s)| ==> Points(s)[i] == Points(s[n..])[i - 1];
      assert forall i :: n <= i < |s| ==> s[i] == s[n..][i - n];
    }
  }

  /** What agents may spell between two quotes: any spelling of a text free of control characters,
      127 among them, and of unpaired surrogates. */
  lemma {:induction false} AgentContentExactly(inner: JsString, s: JsString)
    ensures Content(inner, AGENT) == Some(s)
            <==> Unescape(inner) == Some(s) && Paired(s) && forall i :: 0 <= i < |s| ==> 32 <= s[i] && s[i] != 127
  {
    AdmittedByNumbers(s);
  }

  /** Between tokens the reader skips the units 9, 10, 13 and 32, all of them and no others. */
  lemma {:induction false} SpaceByNumbers(text: JsString, o: nat)
    requires o <= |text|
    ensures var e := SkipSpace(text, o);
      && o <= e <= |text| && (forall i :: o <= i < e ==> text[i] in {9, 10, 13, 32})
      && (e < |text| ==> text[e] !in {9, 10, 13, 32})
    decreases |text| - o
  {
    if o < |text| && text[o] in {9, 10, 13, 32} { SpaceByNumbers(text, o + 1); }
  }

  // ----- keys and structure -----

  /** Text a comes before text b: it is a proper beginning of b, or smaller at the first difference. */
  ghost predicate Ascends(a: JsString, b: JsString) {
    || a < b
    || exists k :: 0 <= k < |a| && k < |b| && a[..k] == b[..k] && a[k] < b[k]
  }

  lemma {:induction false} LexIsAscending(a: JsString, b: JsString)
    requires LexBefore(a, b)
    ensures Ascends(a, b)
  {
    if a != [] && a[0] == b[0] {
      LexIsAscending(a[1..], b[1..]);
      assert a == [a[0]] + a[1..] && b == [b[0]] + b[1..];
      if !(a[1..] < b[1..]) {
        var k :| 0 <= k < |a[1..]| && k < |b[1..]| && a[1..][..k] == b[1..][..k] && a[1..][k] < b[1..][k];
        assert a[..k + 1] == [a[0]] + a[1..][..k] && b[..k + 1] == [b[0]] + b[1..][..k];
        assert a[k + 1] < b[k + 1];
      }
    } else if a != [] {
      assert a[..0] == b[..0] && a[0] < b[0];
    }
  }

  /** The parts with a comma, 44, between each two. */
  function Joined(parts: seq<JsString>): JsString {
    if parts == [] then [] else if |parts| == 1 then parts[0] else parts[0] + [44] + Joined(parts[1..])
  }

  ghost function ItemTexts(items: seq<Json>): seq<JsString> {
    seq(|items|, i requires 0 <= i < |items| => Canonical(items[i]))
  }

  ghost function PairTexts(members: map<JsString, Json>, keys: seq<JsString>): seq<JsString>
    requires forall k :: k in keys ==> k in members
  {
    seq(|keys|, i requires 0 <= i < |keys| => Quote(keys[i]) + [58] + Canonical(members[keys[i]]))
  }

  lemma {:induction false} JoinOne(parts: seq<JsString>, rest: JsString, end: JsString)
    requires |parts| > 1 && rest == Joined(parts[1..]) + end
    ensures parts[0] + ([44] + rest) == Joined(parts) + end
  {
  }

  lemma {:induction false} JoinedItems(v: Json, i: nat)
    requires v.Arr? && i < |v.items|
    ensures CanonicalItems(v, i) == Joined(ItemTexts(v.items)[i..]) + [93]
    decreases |v.items| - i
  {
    var parts := ItemTexts(v.items)[i..];
    assert parts[0] == Canonical(v.items[i]);
    if i + 1 < |v.items| {
      JoinedItems(v, i + 1);
      assert parts[1..] == ItemTexts(v.items)[i + 1..];
      JoinOne(parts, CanonicalItems(v, i + 1), [93]);
    }
  }

  lemma {:induction false} JoinedPairs(v: Json, keys: seq<JsString>)
    requires v.Obj? && keys != [] && forall k :: k in keys ==> k in v.members
    ensures CanonicalMembers(v, keys) == Joined(PairTexts(v.members, keys)) + [125]
    decreases |keys|
  {
    var parts := PairTexts(v.members, keys);
    assert parts[0] == Quote(keys[0]) + [58] + Canonical(v.members[keys[0]]);
    if |keys| > 1 {
      JoinedPairs(v, keys[1..]);
      assert parts[1..] == PairTexts(v.members, keys[1..]);
      JoinOne(parts, CanonicalMembers(v, keys[1..]), [125]);
    }
  }

  /** The canonical form by numbers: the three words, a quoted string, the items between 91 and 93,
      the members between 123 and 125 in ascending order of their keys, with 44 between the parts and
      58 between key and value, and nothing else. */
  lemma {:induction false} CanonicalByNumbers(v: Json) returns (keys: seq<JsString>)
    ensures match v
            case Null => Canonical(v) == [110, 117, 108, 108]
            case Bool(b) => Canonical(v) == if b then [116, 114, 117, 101] else [102, 97, 108, 115, 101]
            case Str(s) => Canonical(v) == [34] + Escape(s) + [34]
            case Arr(items) => Canonical(v) == [91] + Joined(ItemTexts(items)) + [93]
            case Obj(members) =>
              && (forall k :: k in keys <==> k in members)
              && (forall i, j :: 0 <= i < j < |keys| ==> Ascends(keys[i], keys[j]))
              && Canonical(v) == [123] + Joined(PairTexts(members, keys)) + [125]
  {
    keys := [];
    match v
    case Null => assert NullText() == [110, 117, 108, 108];
    case Bool(b) =>
      assert TrueText() == [116, 114, 117, 101] && FalseText() == [102, 97, 108, 115, 101];
    case Str(s) =>
    case Arr(items) =>
      if items != [] {
        JoinedItems(v, 0);
        assert ItemTexts(items)[0..] == ItemTexts(items);
      }
    case Obj(members) =>
      keys := SortedKeys(members.Keys);
      KeysAscend(members.Keys);
      if members == map[] {
        assert forall k :: k !in keys;
        assert |keys| == 0;
      } else {
        var k :| k in members;
        assert k in keys;
        JoinedPairs(v, keys);
      }
  }

  lemma {:induction false} KeysAscend(keys: set<JsString>)
    ensures forall i, j :: 0 <= i < j < |SortedKeys(keys)| ==> Ascends(SortedKeys(keys)[i], SortedKeys(keys)[j])
  {
    var sorted, before := SortedKeys(keys), ByText(ItselfAsText());
    ByTextIsWeakOrder(ItselfAsText());
    SortKeeps(Enumerate(keys), before);
    forall i, j | 0 <= i < j < |sorted| ensures Ascends(sorted[i], sorted[j]) {
      assert !before(sorted[j], sorted[i]) && sorted[i] != sorted[j];
      LexTotal(sorted[i], sorted[j]);
      LexIsAscending(sorted[i], sorted[j]);
    }
  }
}
