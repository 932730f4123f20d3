/** The canonical form and the reader undo each other. */
module AgentJsonCanonical {
  import opened Outcomes
  import opened Sums
  import opened Sorting
  import opened Unicode
  import opened AgentJson
  import opened AgentJsonGrammar

  // ----- strings -----

  lemma {:induction false} HexRoundTrip(n: int)
    requires 0 <= n < 16
    ensures HexValue(HexDigit(n)) == Some(n)
  {
  }

  lemma {:induction false} UnicodeEscapeRead(u: int, rest: JsString)
    requires IsUnit(u)
    ensures UnescapeOne(UnicodeEscape(u) + rest) == Some((u, 6))
  {
    HexRoundTrip(u / 4096);
    HexRoundTrip(u / 256 % 16);
    HexRoundTrip(u / 16 % 16);
    HexRoundTrip(u % 16);
    HexDigitsMakeUp(u);
    var text := UnicodeEscape(u) + rest;
    assert text[2] == HexDigit(u / 4096) && text[3] == HexDigit(u / 256 % 16);
    assert text[4] == HexDigit(u / 16 % 16) && text[5] == HexDigit(u % 16);
  }

  lemma {:induction false} HexDigitsMakeUp(u: int)
    requires IsUnit(u)
    ensures ((u / 4096 * 16 + u / 256 % 16) * 16 + u / 16 % 16) * 16 + u % 16 == u
  {
    assert u / 16 / 16 == u / 256 && u / 256 / 16 == u / 4096;
  }

  lemma {:induction false} LetterEscapeRead(c: int, u: int, rest: JsString)
    requires c != 'u' as int && EscapeValue(c) == Some(u)
    ensures UnescapeOne([BACKSLASH, c] + rest) == Some((u, 2))
  {
    assert ([BACKSLASH, c] + rest)[1] == c;
  }

  lemma {:induction false} EscapeUnitRead(u: int, rest: JsString)
    requires IsUnit(u)
    ensures UnescapeOne(EscapeUnit(u) + rest) == Some((u, |EscapeUnit(u)|))
  {
    var e := EscapeUnit(u);
    if e == [u] {
      assert (e + rest)[0] == u;
    } else if |e| == 2 {
      LetterEscapeRead(e[1], u, rest);
      assert e == [BACKSLASH, e[1]];
    } else {
      UnicodeEscapeRead(u, rest);
    }
  }

  lemma {:induction false} UnescapeStep(first: JsString, u: int, rest: JsString)
    requires first != [] && UnescapeOne(first + rest) == Some((u, |first|)) && Unescape(rest).Some?
    ensures Unescape(first + rest) == Some([u] + Unescape(rest).value)
  {
    assert (first + rest)[|first|..] == rest;
  }

  /** Escaping loses nothing, not even unpaired surrogates and control characters. */
  lemma {:induction false} UnescapeOfEscape(s: JsString)
    requires AllUnits(s)
    ensures Unescape(Escape(s)) == Some(s)
  {
    if s != [] {
      assert IsUnit(s[0]);
      if FirstPoint(s).1 == 2 {
        var rest := Escape(s[2..]);
        UnescapeOfEscape(s[2..]);
        assert s[..2] + rest == [s[0]] + ([s[1]] + rest);
        UnescapeStep([s[1]], s[1], rest);
        UnescapeStep([s[0]], s[0], [s[1]] + rest);
        assert s == [s[0]] + ([s[1]] + s[2..]);
      } else {
        UnescapeOfEscape(s[1..]);
        EscapeUnitRead(s[0], Escape(s[1..]));
        UnescapeStep(EscapeUnit(s[0]), s[0], Escape(s[1..]));
        assert s == [s[0]] + s[1..];
      }
    }
  }

  // ----- values that can be printed -----

  predicate PrintableText(s: JsString, d: Dialect) {
    AllUnits(s) && (d.plainText ==> Admitted(s))
  }

  /** The value nests no deeper than the dialect allows, and its strings are admitted. */
  predicate Printable(v: Json, depth: nat, d: Dialect)
    decreases v
  {
    && depth <= d.maxDepth
    && match v
       case Null => true
       case Bool(_) => true
       case Str(s) => PrintableText(s, d)
       case Arr(items) => forall i :: 0 <= i < |items| ==> Printable(items[i], depth + 1, d)
       case Obj(m) => forall k :: k in m ==> PrintableText(k, d) && Printable(v.members[k], depth + 1, d)
  }

  // ----- the tree that the canonical form is written from -----

  ghost function CanonicalNode(v: Json): Node
    decreases v, 2, 0
  {
    Node([], CanonicalBody(v))
  }

  ghost function CanonicalBody(v: Json): Body
    decreases v, 1, 0
  {
    match v
    case Null => NullToken
    case Bool(b) => if b then TrueToken else FalseToken
    case Str(s) => StringToken(Escape(s))
    case Arr(items) => if items == [] then EmptyArray([]) else ArrayOf(ItemNodes(v, 0))
    case Obj(m) => if m == map[] then EmptyObject([]) else ObjectOf(MemberNodes(v, SortedKeys(m.Keys)))
  }

  ghost function ItemNodes(v: Json, i: nat): (r: seq<Item>)
    requires v.Arr? && i <= |v.items|
    ensures |r| == |v.items| - i
    decreases v, 0, |v.items| - i
  {
    if i == |v.items| then [] else [Item(CanonicalNode(v.items[i]), [])] + ItemNodes(v, i + 1)
  }

  ghost function MemberNodes(v: Json, keys: seq<JsString>): (r: seq<Member>)
    requires v.Obj? && forall k :: k in keys ==> k in v.members
    ensures |r| == |keys|
    decreases v, 0, |keys|
  {
    if keys == [] then []
    else [Member([], Escape(keys[0]), [], CanonicalNode(v.members[keys[0]]), [])] + MemberNodes(v, keys[1..])
  }

  lemma {:induction false} ShowsCanonical(v: Json)
    ensures Show(CanonicalNode(v)) == Canonical(v)
    decreases v, 1, 0
  {
    assert Show(CanonicalNode(v)) == [] + ShowBody(CanonicalBody(v)) == ShowBody(CanonicalBody(v));
    if v.Arr? && v.items != [] {
      ShowsItems(v, 0);
      ArrayForm(v);
    } else if v.Obj? && v.members != map[] {
      ShowsMembers(v, KeysOf(v));
      ObjectForm(v);
      ObjectNodeForm(v);
    } else {
      ShortForm(v);
    }
  }

  lemma {:induction false} ArrayForm(v: Json)
    requires v.Arr? && v.items != []
    ensures Canonical(v) == [OPEN_BRACKET] + CanonicalItems(v, 0)
    ensures ShowBody(CanonicalBody(v)) == [OPEN_BRACKET] + ShowItems(ItemNodes(v, 0))
  {
  }

  lemma {:induction false} ObjectForm(v: Json)
    requires v.Obj? && v.members != map[]
    ensures Canonical(v) == [OPEN_BRACE] + CanonicalMembers(v, KeysOf(v))
  {
    match v case Obj(m) =>
  }

  lemma {:induction false} ObjectNodeForm(v: Json)
    requires v.Obj? && v.members != map[]
    ensures ShowBody(CanonicalBody(v)) == [OPEN_BRACE] + ShowMembers(MemberNodes(v, KeysOf(v)))
  {
    match v case Obj(m) =>
  }

  ghost function KeysOf(v: Json): (r: seq<JsString>)
    requires v.Obj?
    ensures Distinct(r) && forall k :: k in r <==> k in v.members
    ensures v.members != map[] ==> r != []
  {
    if v.members != map[] then
      KeysNotEmpty(v.members);
      SortedKeys(v.members.Keys)
    else SortedKeys(v.members.Keys)
  }

  lemma {:induction false} ShortForm(v: Json)
    requires v.Arr? ==> v.items == []
    requires v.Obj? ==> v.members == map[]
    ensures Canonical(v) == ShowBody(CanonicalBody(v))
  {
    if v.Arr? { assert [OPEN_BRACKET] + [] + [CLOSE_BRACKET] == [OPEN_BRACKET, CLOSE_BRACKET]; }
    if v.Obj? { assert [OPEN_BRACE] + [] + [CLOSE_BRACE] == [OPEN_BRACE, CLOSE_BRACE]; }
  }

  lemma {:induction false} KeysNotEmpty(m: map<JsString, Json>)
    requires m != map[]
    ensures SortedKeys(m.Keys) != []
  {
    assert m.Keys != {};
    var k :| k in m.Keys;
    assert k in SortedKeys(m.Keys);
  }

  lemma {:induction false} ShowsItems(v: Json, i: nat)
    requires v.Arr? && i < |v.items|
    ensures ShowItems(ItemNodes(v, i)) == CanonicalItems(v, i)
    decreases v, 0, |v.items| - i
  {
    var nodes := ItemNodes(v, i);
    assert nodes[1..] == ItemNodes(v, i + 1);
    ShowsCanonical(v.items[i]);
    ShowItemsIs(nodes);
    assert Show(nodes[0].node) + [] == Canonical(v.items[i]);
    if i + 1 < |v.items| {
      ShowsItems(v, i + 1);
    } else {
      assert [CLOSE_BRACKET] + [] == [CLOSE_BRACKET];
    }
  }

  lemma {:induction false} ShowsMembers(v: Json, keys: seq<JsString>)
    requires v.Obj? && keys != [] && forall k :: k in keys ==> k in v.members
    ensures ShowMembers(MemberNodes(v, keys)) == CanonicalMembers(v, keys)
    decreases v, 0, |keys|
  {
    var nodes := MemberNodes(v, keys);
    var text := Quote(keys[0]) + [COLON] + Canonical(v.members[keys[0]]);
    assert nodes[1..] == MemberNodes(v, keys[1..]);
    ShowsCanonical(v.members[keys[0]]);
    ShowMembersIs(nodes);
    assert ShowPair(nodes[0]) == text by {
      assert [] + Quoted(Escape(keys[0])) + [] == Quote(keys[0]);
    }
    assert text + [] == text;
    if |keys| > 1 {
      ShowsMembers(v, keys[1..]);
    } else {
      assert [CLOSE_BRACE] + [] == [CLOSE_BRACE];
    }
  }

  lemma {:induction false} EscapedContent(s: JsString, d: Dialect)
    requires PrintableText(s, d)
    ensures Content(Escape(s), d) == Some(s) && ContentOf(Escape(s), d) == s
  {
    UnescapeOfEscape(s);
  }

  lemma {:induction false} CanonicalIsLegal(v: Json, depth: nat, d: Dialect)
    requires Printable(v, depth, d)
    ensures Legal(CanonicalNode(v), depth, d) && Meaning(CanonicalNode(v), d) == v
    decreases v, 1, 0
  {
    if v.Str? {
      EscapedContent(v.s, d);
    } else if v.Arr? && v.items != [] {
      ItemsAreLegal(v, 0, depth, d);
      assert v.items[0..] == v.items;
      LegalArray(v, depth, d);
    } else if v.Obj? && v.members != map[] {
      MembersRestored(v, depth, d);
      LegalObject(v, depth, d);
    }
  }

  lemma {:induction false} MembersRestored(v: Json, depth: nat, d: Dialect)
    requires v.Obj? && v.members != map[] && Printable(v, depth, d)
    ensures LegalMembers(MemberNodes(v, KeysOf(v)), depth, d, {})
    ensures MemberMeanings(MemberNodes(v, KeysOf(v)), map[], d) == v.members
    decreases v, 0, |KeysOf(v)| + 1
  {
    var nothing: map<JsString, Json> := map[];
    assert nothing.Keys == {};
    MembersAreLegal(v, KeysOf(v), depth, d, nothing);
  }

  lemma {:induction false} LegalArray(v: Json, depth: nat, d: Dialect)
    requires v.Arr? && v.items != [] && depth <= d.maxDepth
    requires LegalItems(ItemNodes(v, 0), depth, d) && ItemMeanings(ItemNodes(v, 0), d) == v.items
    ensures Legal(CanonicalNode(v), depth, d) && Meaning(CanonicalNode(v), d) == v
  {
  }

  lemma {:induction false} LegalObject(v: Json, depth: nat, d: Dialect)
    requires v.Obj? && v.members != map[] && depth <= d.maxDepth
    requires LegalMembers(MemberNodes(v, KeysOf(v)), depth, d, {})
    requires MemberMeanings(MemberNodes(v, KeysOf(v)), map[], d) == v.members
    ensures Legal(CanonicalNode(v), depth, d) && Meaning(CanonicalNode(v), d) == v
  {
  }

  lemma {:induction false} ItemsAreLegal(v: Json, i: nat, depth: nat, d: Dialect)
    requires v.Arr? && i <= |v.items| && Printable(v, depth, d)
    ensures LegalItems(ItemNodes(v, i), depth, d) && ItemMeanings(ItemNodes(v, i), d) == v.items[i..]
    decreases v, 0, |v.items| - i
  {
    if i < |v.items| {
      assert ItemNodes(v, i)[1..] == ItemNodes(v, i + 1);
      CanonicalIsLegal(v.items[i], depth + 1, d);
      ItemsAreLegal(v, i + 1, depth, d);
      assert v.items[i..] == [v.items[i]] + v.items[i + 1..];
    }
  }

  lemma {:induction false} MembersAreLegal(v: Json, keys: seq<JsString>, depth: nat, d: Dialect,
                                           read: map<JsString, Json>)
    requires v.Obj? && Printable(v, depth, d) && Distinct(keys) && forall k :: k in keys ==> k in v.members && k !in read
    ensures LegalMembers(MemberNodes(v, keys), depth, d, read.Keys)
    ensures var r := MemberMeanings(MemberNodes(v, keys), read, d);
            forall k :: (k in r <==> k in keys || k in read)
                        && (k in keys ==> r[k] == v.members[k]) && (k in read ==> r[k] == read[k])
    decreases v, 0, |keys|
  {
    if keys != [] {
      var key, rest := keys[0], keys[1..];
      var read1 := read[key := v.members[key]];
      assert forall i :: 0 <= i < |rest| ==> rest[i] == keys[i + 1];
      assert key !in rest;
      assert keys == [key] + rest;
      assert read1.Keys == read.Keys + {key};
      assert MemberNodes(v, keys)[1..] == MemberNodes(v, rest);
      EscapedContent(key, d);
      CanonicalIsLegal(v.members[key], depth + 1, d);
      MembersAreLegal(v, rest, depth, d, read1);
    }
  }

  /** Reading a canonical form gives back the value. */
  lemma {:induction false} ParseOfCanonical(v: Json, d: Dialect)
    requires Printable(v, 1, d)
    ensures Parse(Canonical(v), d) == Some(v)
  {
    CanonicalIsLegal(v, 1, d);
    ShowsCanonical(v);
    assert Show(CanonicalNode(v)) + [] == Canonical(v);
    SpelledParses(Canonical(v), CanonicalNode(v), [], d, v);
  }

  /** Different values have different canonical forms. */
  lemma {:induction false} CanonicalIsInjective(v: Json, w: Json, d: Dialect)
    requires Printable(v, 1, d) && Printable(w, 1, d) && Canonical(v) == Canonical(w)
    ensures v == w
  {
    ParseOfCanonical(v, d);
    ParseOfCanonical(w, d);
  }

  /** The canonical form does not depend on the order in which keys are enumerated. */
  lemma {:induction false} KeyOrderIsUnique(keys: set<JsString>, listed: seq<JsString>)
    requires Distinct(listed) && forall k :: k in listed <==> k in keys
    ensures SortedKeys(keys) == Sort(listed, ByText(ItselfAsText()))
  {
    var all := Enumerate(keys);
    forall k ensures multiset(all)[k] == multiset(listed)[k] {
      DistinctCounts(all, k);
      DistinctCounts(listed, k);
      assert k in multiset(all) <==> k in all;
      assert k in multiset(listed) <==> k in listed;
    }
    assert multiset(all) == multiset(listed);
    ByTextIsWeakOrder(ItselfAsText());
    ByTextSeparates(all, ItselfAsText());
    SortIgnoresOrder(all, listed, ByText(ItselfAsText()));
  }

  // ----- whatever is accepted can be printed -----

  lemma {:induction false} UnescapedUnits(inner: JsString)
    requires AllUnits(inner) && Unescape(inner).Some?
    ensures AllUnits(Unescape(inner).value)
  {
    if inner != [] {
      var (u, n) := UnescapeOne(inner).value;
      assert IsUnit(inner[0]);
      UnescapedUnits(inner[n..]);
    }
  }

  lemma {:induction false} ContentPrintable(inner: JsString, d: Dialect)
    requires AllUnits(inner) && Content(inner, d).Some?
    ensures PrintableText(ContentOf(inner, d), d)
  {
    UnescapedUnits(inner);
  }

  lemma {:induction false} UnitsSplit(a: JsString, b: JsString)
    ensures AllUnits(a + b) <==> AllUnits(a) && AllUnits(b)
  {
    if AllUnits(a + b) {
      assert forall i :: 0 <= i < |a| ==> a[i] == (a + b)[i];
      assert forall i :: 0 <= i < |b| ==> b[i] == (a + b)[|a| + i];
    }
  }

  lemma {:induction false} LegalIsPrintable(n: Node, depth: nat, d: Dialect)
    requires Legal(n, depth, d) && AllUnits(Show(n))
    ensures Printable(Meaning(n, d), depth, d)
    decreases n, 1
  {
    UnitsSplit(n.space, ShowBody(n.body));
    match n.body
    case NullToken =>
    case TrueToken =>
    case FalseToken =>
    case EmptyArray(_) =>
    case EmptyObject(_) =>
    case StringToken(inner) =>
      UnitsSplit([QUOTE], inner);
      UnitsSplit([QUOTE] + inner, [QUOTE]);
      ContentPrintable(inner, d);
    case ArrayOf(items) =>
      UnitsSplit([OPEN_BRACKET], ShowItems(items));
      ItemsArePrintable(items, depth, d);
    case ObjectOf(members) =>
      UnitsSplit([OPEN_BRACE], ShowMembers(members));
      MembersArePrintable(members, depth, d, map[], {});
  }

  lemma {:induction false} ItemsArePrintable(items: seq<Item>, depth: nat, d: Dialect)
    requires LegalItems(items, depth, d) && AllUnits(ShowItems(items))
    ensures forall i :: 0 <= i < |ItemMeanings(items, d)| ==> Printable(ItemMeanings(items, d)[i], depth + 1, d)
    decreases items, 0
  {
    if items != [] {
      var n, rest := items[0].node, items[1..];
      ShowItemsIs(items);
      var tail := if |items| == 1 then [CLOSE_BRACKET] + [] else [COMMA] + ShowItems(rest);
      UnitsSplit(Show(n) + items[0].after, tail);
      UnitsSplit(Show(n), items[0].after);
      if |items| > 1 { UnitsSplit([COMMA], ShowItems(rest)); }
      LegalIsPrintable(n, depth + 1, d);
      ItemsArePrintable(rest, depth, d);
      assert ItemMeanings(items, d) == [Meaning(n, d)] + ItemMeanings(rest, d);
    }
  }

  lemma {:induction false} PairUnits(m: Member)
    requires AllUnits(ShowPair(m))
    ensures AllUnits(m.key) && AllUnits(Show(m.node))
  {
    UnitsSplit(m.before + Quoted(m.key) + m.gap + [COLON], Show(m.node));
    UnitsSplit(m.before + Quoted(m.key) + m.gap, [COLON]);
    UnitsSplit(m.before + Quoted(m.key), m.gap);
    UnitsSplit(m.before, Quoted(m.key));
    UnitsSplit([QUOTE] + m.key, [QUOTE]);
    UnitsSplit([QUOTE], m.key);
  }

  lemma {:induction false} MembersUnits(members: seq<Member>)
    requires members != [] && AllUnits(ShowMembers(members))
    ensures AllUnits(members[0].key) && AllUnits(Show(members[0].node)) && AllUnits(ShowMembers(members[1..]))
  {
    var m, rest := members[0], members[1..];
    ShowMembersIs(members);
    var tail := if |members| == 1 then [CLOSE_BRACE] + [] else [COMMA] + ShowMembers(rest);
    UnitsSplit(ShowPair(m) + m.after, tail);
    UnitsSplit(ShowPair(m), m.after);
    PairUnits(m);
    if |members| > 1 { UnitsSplit([COMMA], ShowMembers(rest)); } else { assert rest == []; }
  }

  ghost predicate PrintableMembers(m: map<JsString, Json>, depth: nat, d: Dialect) {
    forall k :: k in m ==> PrintableText(k, d) && Printable(m[k], depth + 1, d)
  }

  lemma {:induction false} MembersArePrintable(members: seq<Member>, depth: nat, d: Dialect,
                                               read: map<JsString, Json>, keys: set<JsString>)
    requires LegalMembers(members, depth, d, keys) && AllUnits(ShowMembers(members)) && PrintableMembers(read, depth, d)
    ensures PrintableMembers(MemberMeanings(members, read, d), depth, d)
    decreases members, 0
  {
    if members != [] {
      var m, rest := members[0], members[1..];
      var key, v := ContentOf(m.key, d), Meaning(m.node, d);
      MembersUnits(members);
      ContentPrintable(m.key, d);
      LegalIsPrintable(m.node, depth + 1, d);
      MembersArePrintable(rest, depth, d, read[key := v], keys + {key});
    }
  }

  /** Every accepted text is within the limits: its value has a canonical form that is accepted
      again, with the same value. */
  lemma {:induction false} AcceptedIsPrintable(text: JsString, d: Dialect)
    requires AllUnits(text) && Parse(text, d).Some?
    ensures Printable(Parse(text, d).value, 1, d)
    ensures Parse(Canonical(Parse(text, d).value), d) == Parse(text, d)
  {
    var n, tail := ParseSpells(text, d);
    UnitsSplit(Show(n), tail);
    LegalIsPrintable(n, 1, d);
    ParseOfCanonical(Parse(text, d).value, d);
  }

  // ----- bytes -----

  lemma {:induction false} AdmittedIsWellFormed(s: JsString)
    requires AllUnits(s) && Admitted(s)
    ensures WellFormed(s)
  {
    forall i | 0 <= i < |Points(s)| ensures IsScalar(Points(s)[i]) {
      assert AdmittedPoint(Points(s)[i]);
      PointBound(s, i);
    }
  }

  lemma {:induction false} PointBound(s: JsString, i: nat)
    requires AllUnits(s) && i < |Points(s)|
    ensures Points(s)[i] < 0x11_0000
    decreases |s|
  {
    var (p, n) := FirstPoint(s);
    assert IsUnit(s[0]);
    if i > 0 {
      PointBound(s[n..], i - 1);
      assert Points(s)[i] == Points(s[n..])[i - 1];
    }
  }

  predicate AllAscii(s: JsString) {
    forall i :: 0 <= i < |s| ==> 0 <= s[i] < 128
  }

  lemma {:induction false} AsciiIsWellFormed(s: JsString)
    requires AllAscii(s)
    ensures WellFormed(s) && Points(s) == s
  {
    if s != [] {
      assert 0 <= s[0] < 128;
      AsciiIsWellFormed(s[1..]);
      assert s == [s[0]] + s[1..];
    }
  }

  lemma {:induction false} EscapeIsWellFormed(s: JsString)
    requires WellFormed(s)
    ensures WellFormed(Escape(s))
  {
    if s != [] {
      var (p, n) := FirstPoint(s);
      assert IsUnit(s[0]);
      assert Points(s) == [p] + Points(s[n..]);
      assert IsScalar(Points(s)[0]);
      assert forall i :: 0 <= i < |Points(s[n..])| ==> Points(s[n..])[i] == Points(s)[i + 1];
      assert WellFormed(s[n..]);
      EscapeIsWellFormed(s[n..]);
      if n == 2 {
        assert FirstPoint(s[..2]) == (p, 2);
        assert s[..2][2..] == [];
        assert Points(s[..2]) == [p];
        WellFormedConcat(s[..2], Escape(s[2..]));
      } else {
        EscapedUnitIsWellFormed(s[0]);
        WellFormedConcat(EscapeUnit(s[0]), Escape(s[1..]));
      }
    }
  }

  lemma {:induction false} EscapedUnitIsWellFormed(u: int)
    requires IsUnit(u) && !IsSurrogate(u)
    ensures WellFormed(EscapeUnit(u))
  {
    if u < 128 {
      if u < 32 {
        assert 0 <= u / 16 % 16 < 16 && 0 <= u % 16 < 16;
      }
      AsciiIsWellFormed(EscapeUnit(u));
    } else {
      assert [u][1..] == [];
      assert Points([u]) == [u];
    }
  }

  lemma {:induction false} QuoteIsWellFormed(s: JsString, d: Dialect)
    requires PrintableText(s, d) && d.plainText
    ensures WellFormed(Quote(s))
  {
    AdmittedIsWellFormed(s);
    EscapeIsWellFormed(s);
    AsciiIsWellFormed([QUOTE]);
    WellFormedConcat([QUOTE], Escape(s));
    WellFormedConcat([QUOTE] + Escape(s), [QUOTE]);
  }

  lemma {:induction false} CanonicalIsWellFormed(v: Json, depth: nat, d: Dialect)
    requires Printable(v, depth, d) && d.plainText
    ensures WellFormed(Canonical(v))
    decreases v, 1, 0
  {
    match v
    case Null => AsciiIsWellFormed(NullText());
    case Bool(b) => AsciiIsWellFormed(if b then TrueText() else FalseText());
    case Str(s) => QuoteIsWellFormed(s, d);
    case Arr(items) =>
      AsciiIsWellFormed([OPEN_BRACKET, CLOSE_BRACKET]);
      AsciiIsWellFormed([OPEN_BRACKET]);
      if items != [] {
        ItemsAreWellFormed(v, 0, depth, d);
        WellFormedConcat([OPEN_BRACKET], CanonicalItems(v, 0));
      }
    case Obj(m) =>
      AsciiIsWellFormed([OPEN_BRACE, CLOSE_BRACE]);
      AsciiIsWellFormed([OPEN_BRACE]);
      if m != map[] {
        KeysNotEmpty(m);
        MembersAreWellFormed(v, SortedKeys(m.Keys), depth, d);
        WellFormedConcat([OPEN_BRACE], CanonicalMembers(v, SortedKeys(m.Keys)));
      }
  }

  lemma {:induction false} ItemsAreWellFormed(v: Json, i: nat, depth: nat, d: Dialect)
    requires v.Arr? && i < |v.items| && Printable(v, depth, d) && d.plainText
    ensures WellFormed(CanonicalItems(v, i))
    decreases v, 0, |v.items| - i
  {
    CanonicalIsWellFormed(v.items[i], depth + 1, d);
    AsciiIsWellFormed([CLOSE_BRACKET]);
    AsciiIsWellFormed([COMMA]);
    if i + 1 < |v.items| {
      ItemsAreWellFormed(v, i + 1, depth, d);
      WellFormedConcat([COMMA], CanonicalItems(v, i + 1));
      WellFormedConcat(Canonical(v.items[i]), [COMMA] + CanonicalItems(v, i + 1));
    } else {
      WellFormedConcat(Canonical(v.items[i]), [CLOSE_BRACKET]);
    }
  }

  lemma {:induction false} MembersAreWellFormed(v: Json, keys: seq<JsString>, depth: nat, d: Dialect)
    requires v.Obj? && keys != [] && (forall k :: k in keys ==> k in v.members) && Printable(v, depth, d) && d.plainText
    ensures WellFormed(CanonicalMembers(v, keys))
    decreases v, 0, |keys|
  {
    var value := Canonical(v.members[keys[0]]);
    var pair := Quote(keys[0]) + [COLON] + value;
    AsciiIsWellFormed([COLON]);
    AsciiIsWellFormed([COMMA]);
    AsciiIsWellFormed([CLOSE_BRACE]);
    QuoteIsWellFormed(keys[0], d);
    CanonicalIsWellFormed(v.members[keys[0]], depth + 1, d);
    WellFormedConcat(Quote(keys[0]), [COLON]);
    WellFormedConcat(Quote(keys[0]) + [COLON], value);
    if |keys| > 1 {
      MembersAreWellFormed(v, keys[1..], depth, d);
      WellFormedConcat([COMMA], CanonicalMembers(v, keys[1..]));
      WellFormedConcat(pair, [COMMA] + CanonicalMembers(v, keys[1..]));
    } else {
      WellFormedConcat(pair, [CLOSE_BRACE]);
    }
  }

  /** Over the wire: the UTF-8 form of a canonical text within the budget is read back as that
      text and that value. */
  lemma {:induction false} BytesOfCanonical(v: Json, maxBytes: nat)
    requires Printable(v, 1, AGENT)
    ensures var raw := Encode(Points(Canonical(v)));
            ParseBytes(raw, maxBytes, AGENT) == if |raw| <= maxBytes then Some((Canonical(v), v)) else None
  {
    CanonicalIsWellFormed(v, 1, AGENT);
    DecodeOfEncode(Points(Canonical(v)));
    UnitsOfPoints(Canonical(v));
    ParseOfCanonical(v, AGENT);
  }
}
