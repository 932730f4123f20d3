/** The grammar of agent JSON as syntax trees, and the proof that the reader accepts exactly the
    texts of legal trees and returns what the tree means. */
module AgentJsonGrammar {
  import opened Outcomes
  import opened Unicode
  import opened AgentJson

  // ----- syntax trees: a value with every space and every spelling it was written with -----

  datatype Node = Node(space: JsString, body: Body)

  datatype Body =
    | NullToken | TrueToken | FalseToken
    | StringToken(inner: JsString)
    | EmptyArray(gap: JsString)
    | ArrayOf(items: seq<Item>)
    | EmptyObject(gap: JsString)
    | ObjectOf(members: seq<Member>)

  datatype Item = Item(node: Node, after: JsString)

  datatype Member = Member(before: JsString, key: JsString, gap: JsString, node: Node, after: JsString)

  function Quoted(inner: JsString): JsString { [QUOTE] + inner + [QUOTE] }

  function Show(n: Node): JsString
    decreases n, 0
  {
    n.space + ShowBody(n.body)
  }

  function ShowBody(b: Body): (r: JsString)
    ensures r != []
    decreases b, 1
  {
    match b
    case NullToken => NullText()
    case TrueToken => TrueText()
    case FalseToken => FalseText()
    case StringToken(inner) => Quoted(inner)
    case EmptyArray(gap) => [OPEN_BRACKET] + gap + [CLOSE_BRACKET]
    case ArrayOf(items) => [OPEN_BRACKET] + ShowItems(items)
    case EmptyObject(gap) => [OPEN_BRACE] + gap + [CLOSE_BRACE]
    case ObjectOf(members) => [OPEN_BRACE] + ShowMembers(members)
  }

  function ShowItems(items: seq<Item>): JsString
    decreases items, 0
  {
    if items == [] then []
    else Show(items[0].node) + items[0].after
         + if |items| == 1 then [CLOSE_BRACKET] else [COMMA] + ShowItems(items[1..])
  }

  function ShowMember(m: Member): JsString
    decreases m, 0
  {
    m.before + Quoted(m.key) + m.gap + [COLON] + Show(m.node) + m.after
  }

  function ShowMembers(members: seq<Member>): JsString
    decreases members, 0
  {
    if members == [] then []
    else ShowMember(members[0]) + if |members| == 1 then [CLOSE_BRACE] else [COMMA] + ShowMembers(members[1..])
  }

  // ----- what a tree means, and when it is legal -----

  predicate AllSpace(s: JsString) {
    forall i :: 0 <= i < |s| ==> IsSpace(s[i])
  }

  function ContentOf(inner: JsString, d: Dialect): JsString {
    if Content(inner, d).Some? then Content(inner, d).value else []
  }

  function Meaning(n: Node, d: Dialect): Json
    decreases n, 0
  {
    match n.body
    case NullToken => Null
    case TrueToken => Bool(true)
    case FalseToken => Bool(false)
    case StringToken(inner) => Str(ContentOf(inner, d))
    case EmptyArray(_) => Arr([])
    case ArrayOf(items) => Arr(ItemMeanings(items, d))
    case EmptyObject(_) => Obj(map[])
    case ObjectOf(members) => Obj(MemberMeanings(members, map[], d))
  }

  function ItemMeanings(items: seq<Item>, d: Dialect): seq<Json>
    decreases items, 0
  {
    if items == [] then [] else [Meaning(items[0].node, d)] + ItemMeanings(items[1..], d)
  }

  function MemberMeanings(members: seq<Member>, read: map<JsString, Json>, d: Dialect): map<JsString, Json>
    decreases members, 0
  {
    if members == [] then read
    else MemberMeanings(members[1..], read[ContentOf(members[0].key, d) := Meaning(members[0].node, d)], d)
  }

  /** Spaces are spaces, strings are admitted, keys differ, and nothing nests too deep. */
  predicate Legal(n: Node, depth: nat, d: Dialect)
    decreases n, 0
  {
    && depth <= d.maxDepth && AllSpace(n.space)
    && match n.body
       case NullToken => true
       case TrueToken => true
       case FalseToken => true
       case StringToken(inner) => Content(inner, d).Some?
       case EmptyArray(gap) => AllSpace(gap)
       case ArrayOf(items) => items != [] && LegalItems(items, depth, d)
       case EmptyObject(gap) => AllSpace(gap)
       case ObjectOf(members) => members != [] && LegalMembers(members, depth, d, {})
  }

  predicate LegalItems(items: seq<Item>, depth: nat, d: Dialect)
    decreases items, 0
  {
    items == [] ||
    (Legal(items[0].node, depth + 1, d) && AllSpace(items[0].after) && LegalItems(items[1..], depth, d))
  }

  predicate LegalMembers(members: seq<Member>, depth: nat, d: Dialect, read: set<JsString>)
    decreases members, 0
  {
    members == [] ||
    (var m := members[0];
     && AllSpace(m.before) && AllSpace(m.gap) && AllSpace(m.after)
     && Content(m.key, d).Some? && ContentOf(m.key, d) !in read
     && Legal(m.node, depth + 1, d)
     && LegalMembers(members[1..], depth, d, read + {ContentOf(m.key, d)}))
  }

  // ----- slices -----

  lemma {:induction false} AtSplit(text: JsString, o: nat, a: JsString, b: JsString)
    ensures At(text, o, a + b) <==> At(text, o, a) && At(text, o + |a|, b)
  {
    if At(text, o, a + b) {
      forall k | 0 <= k < |a| ensures text[o + k] == a[k] { assert (a + b)[k] == a[k]; }
      forall k | 0 <= k < |b| ensures text[o + |a| + k] == b[k] { assert (a + b)[|a| + k] == b[k]; }
    }
    if At(text, o, a) && At(text, o + |a|, b) {
      forall k | 0 <= k < |a + b| ensures text[o + k] == (a + b)[k] {
        if k >= |a| { assert text[o + |a| + (k - |a|)] == b[k - |a|]; }
      }
    }
  }

  lemma {:induction false} AtUnit(text: JsString, o: nat, c: int)
    ensures At(text, o, [c]) <==> o < |text| && text[o] == c
  {
    if At(text, o, [c]) { assert text[o + 0] == [c][0]; }
  }

  lemma {:induction false} AtFirst(text: JsString, o: nat, s: JsString)
    requires At(text, o, s) && s != []
    ensures o < |text| && text[o] == s[0]
  {
    assert text[o + 0] == s[0];
  }

  lemma {:induction false} AtSlice(text: JsString, o: nat, e: nat)
    requires o <= e <= |text|
    ensures At(text, o, text[o..e])
  {
  }

  lemma {:induction false} SliceAt(text: JsString, o: nat, s: JsString)
    requires At(text, o, s)
    ensures text[o..o + |s|] == s
  {
  }

  // ----- white space -----

  lemma {:induction false} SkipExactly(text: JsString, o: nat, space: JsString)
    requires At(text, o, space) && AllSpace(space)
    ensures SkipSpace(text, o) == SkipSpace(text, o + |space|)
    decreases |space|
  {
    if space != [] {
      AtFirst(text, o, space);
      assert IsSpace(space[0]);
      assert space == [space[0]] + space[1..];
      AtSplit(text, o, [space[0]], space[1..]);
      SkipExactly(text, o + 1, space[1..]);
    }
  }

  /** Skipping stops behind a stretch of space if something else follows. */
  lemma {:induction false} SkipStops(text: JsString, o: nat, space: JsString)
    requires At(text, o, space) && AllSpace(space)
    requires o + |space| < |text| && !IsSpace(text[o + |space|])
    ensures SkipSpace(text, o) == o + |space|
  {
    SkipExactly(text, o, space);
  }

  lemma {:induction false} SkipIsSpace(text: JsString, o: nat)
    requires o <= |text|
    ensures AllSpace(text[o..SkipSpace(text, o)])
    ensures SkipSpace(text, SkipSpace(text, o)) == SkipSpace(text, o)
    decreases |text| - o
  {
    if o < |text| && IsSpace(text[o]) {
      SkipIsSpace(text, o + 1);
      var e := SkipSpace(text, o);
      assert text[o..e] == [text[o]] + text[o + 1..e];
    }
  }

  // ----- strings -----

  lemma {:induction false} HexIsPlain(c: int)
    requires HexValue(c).Some?
    ensures c != QUOTE && c != BACKSLASH
  {
  }

  /** One spelled unit is passed over on the way to the closing quote. */
  lemma {:induction false} CloseStep(text: JsString, i: nat, inner: JsString)
    requires inner != [] && UnescapeOne(inner).Some?
    requires var n := UnescapeOne(inner).value.1;
             i + n <= |text| && forall k :: 0 <= k < n ==> text[i + k] == inner[k]
    ensures CloseAt(text, i) == CloseAt(text, i + UnescapeOne(inner).value.1)
  {
    var n := UnescapeOne(inner).value.1;
    assert text[i + 0] == inner[0];
    if n == 6 {
      HexIsPlain(inner[2]);
      HexIsPlain(inner[3]);
      HexIsPlain(inner[4]);
      HexIsPlain(inner[5]);
      assert text[i + 2] == inner[2] && text[i + 3] == inner[3] && text[i + 4] == inner[4] && text[i + 5] == inner[5];
      assert CloseAt(text, i) == CloseAt(text, i + 2) == CloseAt(text, i + 3) == CloseAt(text, i + 4);
      assert CloseAt(text, i + 4) == CloseAt(text, i + 5) == CloseAt(text, i + 6);
    }
  }

  /** Reading quotes and backslashes finds the end of a string that can be unescaped. */
  lemma {:induction false} CloseFound(text: JsString, i: nat, inner: JsString)
    requires At(text, i, inner + [QUOTE]) && Unescape(inner).Some?
    ensures CloseAt(text, i) == Some(i + |inner|)
    decreases |inner|
  {
    if inner == [] {
      AtUnit(text, i, QUOTE);
      assert inner + [QUOTE] == [QUOTE];
    } else {
      var n := UnescapeOne(inner).value.1;
      var first, rest := inner[..n], inner[n..];
      assert inner + [QUOTE] == first + (rest + [QUOTE]);
      AtSplit(text, i, first, rest + [QUOTE]);
      CloseFound(text, i + n, rest);
      CloseStep(text, i, inner);
    }
  }

  lemma {:induction false} ReadsString(text: JsString, o: nat, inner: JsString, d: Dialect)
    requires At(text, o, Quoted(inner)) && Content(inner, d).Some?
    ensures StringAt(text, o, d) == Some((ContentOf(inner, d), o + |Quoted(inner)|))
  {
    assert Quoted(inner) == [QUOTE] + (inner + [QUOTE]);
    AtSplit(text, o, [QUOTE], inner + [QUOTE]);
    AtUnit(text, o, QUOTE);
    CloseFound(text, o + 1, inner);
    AtSplit(text, o + 1, inner, [QUOTE]);
    SliceAt(text, o + 1, inner);
  }

  lemma {:induction false} BuildsString(text: JsString, o: nat, d: Dialect) returns (inner: JsString)
    requires StringAt(text, o, d).Some?
    ensures At(text, o, Quoted(inner)) && Content(inner, d) == Some(StringAt(text, o, d).value.0)
    ensures o + |Quoted(inner)| == StringAt(text, o, d).value.1
  {
    var j := CloseAt(text, o + 1).value;
    inner := text[o + 1..j];
    assert text[o..j + 1] == Quoted(inner);
    AtSlice(text, o, j + 1);
  }

  // ----- every legal tree is read -----

  /** The first unit of a body tells its kind, and is not a space. */
  function Head(b: Body): int {
    match b
    case NullToken => 'n' as int
    case TrueToken => 't' as int
    case FalseToken => 'f' as int
    case StringToken(_) => QUOTE
    case EmptyArray(_) => OPEN_BRACKET
    case ArrayOf(_) => OPEN_BRACKET
    case EmptyObject(_) => OPEN_BRACE
    case ObjectOf(_) => OPEN_BRACE
  }

  lemma {:induction false} BodyStarts(b: Body)
    ensures ShowBody(b)[0] == Head(b) && !IsSpace(Head(b))
  {
    assert NullText()[0] == 'n' as int && TrueText()[0] == 't' as int && FalseText()[0] == 'f' as int;
  }

  lemma {:induction false} StartOfBody(text: JsString, o: nat, n: Node)
    requires At(text, o, Show(n)) && AllSpace(n.space)
    ensures SkipSpace(text, o) == o + |n.space| && UnitAt(text, o + |n.space|) == Head(n.body)
    ensures At(text, o + |n.space|, ShowBody(n.body))
  {
    AtSplit(text, o, n.space, ShowBody(n.body));
    BodyStarts(n.body);
    AtFirst(text, o + |n.space|, ShowBody(n.body));
    SkipStops(text, o, n.space);
  }

  lemma {:induction false} LiteralsRead(text: JsString, o: nat)
    ensures At(text, o, NullText()) ==> LiteralAt(text, o) == Some((Null, o + 4))
    ensures At(text, o, TrueText()) ==> LiteralAt(text, o) == Some((Bool(true), o + 4))
    ensures At(text, o, FalseText()) ==> LiteralAt(text, o) == Some((Bool(false), o + 5))
  {
    if At(text, o, NullText()) { AtFirst(text, o, NullText()); }
    if At(text, o, TrueText()) { AtFirst(text, o, TrueText()); }
    if At(text, o, FalseText()) { AtFirst(text, o, FalseText()); }
  }

  lemma {:induction false} SkipFirstValue(text: JsString, o: nat, depth: nat, d: Dialect)
    requires o <= |text|
    ensures ValueAt(text, SkipSpace(text, o), depth, d) == ValueAt(text, o, depth, d)
  {
    SkipIsSpace(text, o);
  }

  /** Reading items or members does not depend on leading space being skipped. */
  lemma {:induction false} SkipFirstItems(text: JsString, o: nat, depth: nat, d: Dialect)
    requires o <= |text|
    ensures ItemsAt(text, SkipSpace(text, o), depth, d) == ItemsAt(text, o, depth, d)
  {
    SkipFirstValue(text, o, depth + 1, d);
  }

  lemma {:induction false} SkipFirstMembers(text: JsString, o: nat, depth: nat, d: Dialect, read: map<JsString, Json>)
    requires o <= |text|
    ensures MembersAt(text, SkipSpace(text, o), depth, d, read) == MembersAt(text, o, depth, d, read)
  {
    SkipIsSpace(text, o);
    assert PairAt(text, SkipSpace(text, o), depth, d, read.Keys) == PairAt(text, o, depth, d, read.Keys);
  }

  lemma {:induction false} ReadsGap(text: JsString, o: nat, gap: JsString, c: int)
    requires At(text, o, gap + [c]) && AllSpace(gap) && !IsSpace(c)
    ensures SkipSpace(text, o) == o + |gap| && UnitAt(text, o + |gap|) == c
  {
    AtSplit(text, o, gap, [c]);
    AtUnit(text, o + |gap|, c);
    SkipStops(text, o, gap);
  }

  lemma {:induction false} ReadsLiteral(text: JsString, start: nat, b: Body, d: Dialect)
    requires At(text, start, ShowBody(b)) && (b.NullToken? || b.TrueToken? || b.FalseToken?)
    ensures LiteralAt(text, start) == Some((Meaning(Node([], b), d), start + |ShowBody(b)|))
  {
    LiteralsRead(text, start);
  }

  lemma {:induction false} ReadsEmpty(text: JsString, start: nat, gap: JsString, open: int, close: int)
    requires At(text, start, [open] + gap + [close]) && AllSpace(gap) && !IsSpace(close)
    ensures start + 1 <= |text| && SkipSpace(text, start + 1) == start + 1 + |gap|
    ensures UnitAt(text, start + 1 + |gap|) == close
  {
    assert [open] + gap + [close] == [open] + (gap + [close]);
    AtSplit(text, start, [open], gap + [close]);
    ReadsGap(text, start + 1, gap, close);
  }

  /** The value that a body spells, once its first unit has been reached. */
  ghost predicate BodyRead(text: JsString, start: nat, b: Body, depth: nat, d: Dialect) {
    start <= |text| && BodySpelled(ValueAt(text, start, depth, d), start, b, d)
  }

  ghost predicate BodySpelled(r: Option<(Json, nat)>, start: nat, b: Body, d: Dialect) {
    r == Some((Meaning(Node([], b), d), start + |ShowBody(b)|))
  }

  lemma {:induction false} ReadsNode(text: JsString, o: nat, n: Node, depth: nat, d: Dialect)
    requires At(text, o, Show(n)) && Legal(n, depth, d)
    ensures ValueAt(text, o, depth, d) == Some((Meaning(n, d), o + |Show(n)|))
    decreases n, 1
  {
    StartOfBody(text, o, n);
    LegalBody(n, depth, d);
    ReadsBody(text, o + |n.space|, n.body, depth, d);
    NodeIs(text, o, n, depth, d);
  }

  lemma {:induction false} LegalBody(n: Node, depth: nat, d: Dialect)
    requires Legal(n, depth, d)
    ensures Legal(Node([], n.body), depth, d) && Meaning(Node([], n.body), d) == Meaning(n, d)
    ensures |Show(n)| == |n.space| + |ShowBody(n.body)|
  {
  }

  lemma {:induction false} NodeIs(text: JsString, o: nat, n: Node, depth: nat, d: Dialect)
    requires o <= |text| && SkipSpace(text, o) == o + |n.space| && BodyRead(text, o + |n.space|, n.body, depth, d)
    ensures ValueAt(text, o, depth, d) == Some((Meaning(Node([], n.body), d), o + |n.space| + |ShowBody(n.body)|))
  {
    SkipFirstValue(text, o, depth, d);
  }

  lemma {:induction false} ReadsBody(text: JsString, start: nat, b: Body, depth: nat, d: Dialect)
    requires At(text, start, ShowBody(b)) && Legal(Node([], b), depth, d)
    ensures BodyRead(text, start, b, depth, d)
    decreases b, 2
  {
    assert Show(Node([], b)) == ShowBody(b);
    StartOfBody(text, start, Node([], b));
    match b
    case NullToken => ReadsLiteral(text, start, b, d);
    case TrueToken => ReadsLiteral(text, start, b, d);
    case FalseToken => ReadsLiteral(text, start, b, d);
    case StringToken(inner) => ReadsString(text, start, inner, d);
    case EmptyArray(gap) => ReadsEmpty(text, start, gap, OPEN_BRACKET, CLOSE_BRACKET);
    case EmptyObject(gap) => ReadsEmpty(text, start, gap, OPEN_BRACE, CLOSE_BRACE);
    case ArrayOf(items) => ReadsArray(text, start, items, depth, d);
    case ObjectOf(members) => ReadsObject(text, start, members, depth, d);
  }

  /** The list of values that items spell. */
  ghost predicate ItemsRead(text: JsString, o: nat, items: seq<Item>, depth: nat, d: Dialect) {
    o <= |text| && ItemsSpelled(ItemsAt(text, o, depth, d), o, items, d)
  }

  ghost predicate ItemsSpelled(r: Option<(seq<Json>, nat)>, o: nat, items: seq<Item>, d: Dialect) {
    r == Some((ItemMeanings(items, d), o + |ShowItems(items)|))
  }

  ghost predicate MembersRead(text: JsString, o: nat, members: seq<Member>, depth: nat, d: Dialect,
                              read: map<JsString, Json>) {
    o <= |text| && MembersSpelled(MembersAt(text, o, depth, d, read), o, members, d, read)
  }

  ghost predicate MembersSpelled(r: Option<(map<JsString, Json>, nat)>, o: nat, members: seq<Member>, d: Dialect,
                                 read: map<JsString, Json>) {
    r == Some((MemberMeanings(members, read, d), o + |ShowMembers(members)|))
  }

  lemma {:induction false} ReadsArray(text: JsString, start: nat, items: seq<Item>, depth: nat, d: Dialect)
    requires At(text, start, [OPEN_BRACKET] + ShowItems(items)) && depth <= d.maxDepth
    requires items != [] && LegalItems(items, depth, d)
    ensures BodyRead(text, start, ArrayOf(items), depth, d)
    decreases items, 2
  {
    AtSplit(text, start, [OPEN_BRACKET], ShowItems(items));
    AtUnit(text, start, OPEN_BRACKET);
    ItemsStart(text, start + 1, items, depth, d);
    ReadsItems(text, start + 1, items, depth, d);
    ArrayIs(text, start, depth, d, items);
  }

  lemma {:induction false} ArrayIs(text: JsString, start: nat, depth: nat, d: Dialect, items: seq<Item>)
    requires start < |text| && text[start] == OPEN_BRACKET && depth <= d.maxDepth
    requires UnitAt(text, SkipSpace(text, start + 1)) != CLOSE_BRACKET
    requires ItemsRead(text, start + 1, items, depth, d)
    ensures BodyRead(text, start, ArrayOf(items), depth, d)
  {
    var r := ItemsAt(text, start + 1, depth, d);
    SkipFirstItems(text, start + 1, depth, d);
    ValueIsArray(text, start, depth, d, r.value.0, r.value.1);
    ArraySpelled(r, start, items, d);
  }

  lemma {:induction false} ArraySpelled(r: Option<(seq<Json>, nat)>, start: nat, items: seq<Item>, d: Dialect)
    requires ItemsSpelled(r, start + 1, items, d)
    ensures BodySpelled(Some((Arr(r.value.0), r.value.1)), start, ArrayOf(items), d)
  {
  }

  lemma {:induction false} ObjectSpelled(r: Option<(map<JsString, Json>, nat)>, start: nat, members: seq<Member>,
                                         d: Dialect)
    requires MembersSpelled(r, start + 1, members, d, map[])
    ensures BodySpelled(Some((Obj(r.value.0), r.value.1)), start, ObjectOf(members), d)
  {
  }

  lemma {:induction false} ValueIsArray(text: JsString, start: nat, depth: nat, d: Dialect, vs: seq<Json>, e: nat)
    requires start < |text| && text[start] == OPEN_BRACKET && depth <= d.maxDepth
    requires UnitAt(text, SkipSpace(text, start + 1)) != CLOSE_BRACKET
    requires ItemsAt(text, SkipSpace(text, start + 1), depth, d) == Some((vs, e))
    ensures ValueAt(text, start, depth, d) == Some((Arr(vs), e))
  {
  }

  lemma {:induction false} ReadsObject(text: JsString, start: nat, members: seq<Member>, depth: nat, d: Dialect)
    requires At(text, start, [OPEN_BRACE] + ShowMembers(members)) && depth <= d.maxDepth
    requires members != [] && LegalMembers(members, depth, d, {})
    ensures BodyRead(text, start, ObjectOf(members), depth, d)
    decreases members, 2
  {
    AtSplit(text, start, [OPEN_BRACE], ShowMembers(members));
    AtUnit(text, start, OPEN_BRACE);
    MembersStart(text, start + 1, members, depth, d, {});
    var nothing: map<JsString, Json> := map[];
    assert nothing.Keys == {};
    ReadsMembers(text, start + 1, members, depth, d, nothing);
    ObjectIs(text, start, depth, d, members);
  }

  lemma {:induction false} ObjectIs(text: JsString, start: nat, depth: nat, d: Dialect, members: seq<Member>)
    requires start < |text| && text[start] == OPEN_BRACE && depth <= d.maxDepth
    requires UnitAt(text, SkipSpace(text, start + 1)) != CLOSE_BRACE
    requires MembersRead(text, start + 1, members, depth, d, map[])
    ensures BodyRead(text, start, ObjectOf(members), depth, d)
  {
    var r := MembersAt(text, start + 1, depth, d, map[]);
    SkipFirstMembers(text, start + 1, depth, d, map[]);
    ValueIsObject(text, start, depth, d, r.value.0, r.value.1);
    ObjectSpelled(r, start, members, d);
  }

  lemma {:induction false} ValueIsObject(text: JsString, start: nat, depth: nat, d: Dialect, m: map<JsString, Json>,
                                         e: nat)
    requires start < |text| && text[start] == OPEN_BRACE && depth <= d.maxDepth
    requires UnitAt(text, SkipSpace(text, start + 1)) != CLOSE_BRACE
    requires MembersAt(text, SkipSpace(text, start + 1), depth, d, map[]) == Some((m, e))
    ensures ValueAt(text, start, depth, d) == Some((Obj(m), e))
  {
  }

  lemma {:induction false} ItemsStart(text: JsString, o: nat, items: seq<Item>, depth: nat, d: Dialect)
    requires items != [] && At(text, o, ShowItems(items)) && LegalItems(items, depth, d)
    ensures UnitAt(text, SkipSpace(text, o)) == Head(items[0].node.body) != CLOSE_BRACKET
  {
    SplitsItems(text, o, items, depth, d);
    StartOfBody(text, o, items[0].node);
  }

  lemma {:induction false} MembersStart(text: JsString, o: nat, members: seq<Member>, depth: nat, d: Dialect,
                                        read: set<JsString>)
    requires members != [] && At(text, o, ShowMembers(members)) && LegalMembers(members, depth, d, read)
    ensures UnitAt(text, SkipSpace(text, o)) == QUOTE
  {
    var m := members[0];
    SplitsMembers(text, o, members, depth, d, read);
    SplitsPair(text, o, m);
    AtFirst(text, o + |m.before|, Quoted(m.key));
    SkipStops(text, o, m.before);
  }

  /** What follows an item or a member: space, then the separator or the closing mark. */
  lemma {:induction false} ReadsAfter(text: JsString, o: nat, shown: JsString, after: JsString, c: int,
                                      rest: JsString, close: int)
    requires At(text, o, shown + after + ([c] + rest)) && AllSpace(after) && !IsSpace(c)
    requires c == close || (c == COMMA && close != COMMA)
    ensures At(text, o, shown)
    ensures AfterAt(text, o + |shown|, close) == Some((c != close, o + |shown| + |after| + 1))
    ensures At(text, o + |shown| + |after| + 1, rest)
  {
    assert shown + after + ([c] + rest) == shown + ((after + [c]) + rest);
    AtSplit(text, o, shown, (after + [c]) + rest);
    AtSplit(text, o + |shown|, after + [c], rest);
    ReadsGap(text, o + |shown|, after, c);
  }

  lemma {:induction false} ItemsLast(text: JsString, o: nat, depth: nat, d: Dialect, v: Json, e: nat, f: nat)
    requires o <= |text| && ValueAt(text, o, depth + 1, d) == Some((v, e))
    requires AfterAt(text, e, CLOSE_BRACKET) == Some((false, f))
    ensures ItemsAt(text, o, depth, d) == Some(([v], f))
  {
  }

  lemma {:induction false} ItemsMore(text: JsString, o: nat, depth: nat, d: Dialect, v: Json, e: nat, f: nat,
                                     rest: seq<Json>, end: nat)
    requires o <= |text| && ValueAt(text, o, depth + 1, d) == Some((v, e))
    requires AfterAt(text, e, CLOSE_BRACKET) == Some((true, f)) && ItemsAt(text, f, depth, d) == Some((rest, end))
    ensures ItemsAt(text, o, depth, d) == Some(([v] + rest, end))
  {
  }

  lemma {:induction false} ShowItemsIs(items: seq<Item>)
    requires items != []
    ensures ShowItems(items) == Show(items[0].node) + items[0].after
            + if |items| == 1 then [CLOSE_BRACKET] + [] else [COMMA] + ShowItems(items[1..])
    ensures |ShowItems(items)| == |Show(items[0].node)| + |items[0].after| + 1
            + if |items| == 1 then 0 else |ShowItems(items[1..])|
  {
  }

  lemma {:induction false} ItemMeaningsIs(items: seq<Item>, d: Dialect)
    requires items != []
    ensures ItemMeanings(items, d) == if |items| == 1 then [Meaning(items[0].node, d)]
                                      else [Meaning(items[0].node, d)] + ItemMeanings(items[1..], d)
  {
    if |items| == 1 { assert ItemMeanings(items[1..], d) == []; }
  }

  /** Where the parts of a list of items lie: the first node, what follows it, and the rest. */
  lemma {:induction false} SplitsItems(text: JsString, o: nat, items: seq<Item>, depth: nat, d: Dialect)
    requires items != [] && At(text, o, ShowItems(items)) && LegalItems(items, depth, d)
    ensures var n, f := items[0].node, o + |Show(items[0].node)| + |items[0].after| + 1;
            && Legal(n, depth + 1, d) && At(text, o, Show(n))
            && AfterAt(text, o + |Show(n)|, CLOSE_BRACKET) == Some((|items| > 1, f))
            && (|items| == 1 ==> o + |ShowItems(items)| == f)
            && (|items| > 1 ==> At(text, f, ShowItems(items[1..])) && LegalItems(items[1..], depth, d)
                                && o + |ShowItems(items)| == f + |ShowItems(items[1..])|)
  {
    var n, after := items[0].node, items[0].after;
    ShowItemsIs(items);
    if |items| == 1 {
      ReadsAfter(text, o, Show(n), after, CLOSE_BRACKET, [], CLOSE_BRACKET);
    } else {
      ReadsAfter(text, o, Show(n), after, COMMA, ShowItems(items[1..]), CLOSE_BRACKET);
    }
  }

  lemma {:induction false} ItemsReadLast(text: JsString, o: nat, items: seq<Item>, depth: nat, d: Dialect, v: Json,
                                         e: nat, f: nat)
    requires |items| == 1 && o + |ShowItems(items)| == f && ItemRead(text, o, items, depth, d, v, e, f)
    ensures ItemsRead(text, o, items, depth, d)
  {
    ItemMeaningsIs(items, d);
    ItemsLast(text, o, depth, d, v, e, f);
  }

  lemma {:induction false} ItemsReadMore(text: JsString, o: nat, items: seq<Item>, rest: seq<Item>, depth: nat,
                                         d: Dialect, v: Json, e: nat, f: nat)
    requires |items| > 1 && rest == items[1..] && o + |ShowItems(items)| == f + |ShowItems(rest)|
    requires ItemRead(text, o, items, depth, d, v, e, f) && ItemsRead(text, f, rest, depth, d)
    ensures ItemsRead(text, o, items, depth, d)
  {
    var r := ItemsAt(text, f, depth, d);
    ItemMeaningsIs(items, d);
    ItemsMore(text, o, depth, d, v, e, f, r.value.0, r.value.1);
    LongerItems(r, o, items, f, rest, d, v);
  }

  lemma {:induction false} LongerItems(r: Option<(seq<Json>, nat)>, o: nat, items: seq<Item>, f: nat, rest: seq<Item>,
                                       d: Dialect, v: Json)
    requires ItemsSpelled(r, f, rest, d) && o + |ShowItems(items)| == f + |ShowItems(rest)|
    requires ItemMeanings(items, d) == [v] + ItemMeanings(rest, d)
    ensures ItemsSpelled(Some(([v] + r.value.0, r.value.1)), o, items, d)
  {
  }

  /** The first item has been read up to offset e, and the mark behind it up to f. */
  ghost predicate ItemRead(text: JsString, o: nat, items: seq<Item>, depth: nat, d: Dialect, v: Json, e: nat, f: nat)
    requires items != []
  {
    && o <= |text| && e <= |text| && v == Meaning(items[0].node, d)
    && ValueAt(text, o, depth + 1, d) == Some((v, e))
    && AfterAt(text, e, CLOSE_BRACKET) == Some((|items| > 1, f))
  }

  lemma {:induction false} ReadsItem(text: JsString, o: nat, items: seq<Item>, depth: nat, d: Dialect, v: Json,
                                     e: nat, f: nat)
    requires items != [] && At(text, o, ShowItems(items)) && LegalItems(items, depth, d)
    requires v == Meaning(items[0].node, d)
    requires e == o + |Show(items[0].node)| && f == e + |items[0].after| + 1
    ensures ItemRead(text, o, items, depth, d, v, e, f)
    decreases items, 0
  {
    SplitsItems(text, o, items, depth, d);
    ReadsNode(text, o, items[0].node, depth + 1, d);
  }

  lemma {:induction false} ReadsItems(text: JsString, o: nat, items: seq<Item>, depth: nat, d: Dialect)
    requires items != [] && At(text, o, ShowItems(items)) && LegalItems(items, depth, d)
    ensures ItemsRead(text, o, items, depth, d)
    decreases items, 1
  {
    var v := Meaning(items[0].node, d);
    var e := o + |Show(items[0].node)|;
    var f := e + |items[0].after| + 1;
    SplitsItems(text, o, items, depth, d);
    ReadsItem(text, o, items, depth, d, v, e, f);
    if |items| == 1 {
      ItemsReadLast(text, o, items, depth, d, v, e, f);
    } else {
      var rest := items[1..];
      ReadsItems(text, f, rest, depth, d);
      ItemsReadMore(text, o, items, rest, depth, d, v, e, f);
    }
  }

  function ShowPair(m: Member): JsString
  {
    m.before + Quoted(m.key) + m.gap + [COLON] + Show(m.node)
  }

  /** The offset behind the quoted key of a member. */
  function KeyEnd(o: nat, m: Member): nat { o + |m.before| + |Quoted(m.key)| }

  lemma {:induction false} SplitsPair(text: JsString, o: nat, m: Member)
    requires At(text, o, ShowPair(m))
    ensures At(text, o, m.before) && At(text, o + |m.before|, Quoted(m.key))
    ensures At(text, KeyEnd(o, m), m.gap + [COLON]) && At(text, KeyEnd(o, m) + |m.gap| + 1, Show(m.node))
  {
    AtSplit(text, o, m.before + Quoted(m.key) + m.gap + [COLON], Show(m.node));
    assert m.before + Quoted(m.key) + m.gap + [COLON] == (m.before + Quoted(m.key)) + (m.gap + [COLON]);
    AtSplit(text, o, m.before + Quoted(m.key), m.gap + [COLON]);
    AtSplit(text, o, m.before, Quoted(m.key));
  }

  lemma {:induction false} ReadsKey(text: JsString, o: nat, m: Member, d: Dialect)
    requires At(text, o, m.before) && At(text, o + |m.before|, Quoted(m.key)) && AllSpace(m.before)
    requires Content(m.key, d).Some?
    ensures StringAt(text, SkipSpace(text, o), d) == Some((ContentOf(m.key, d), KeyEnd(o, m)))
  {
    AtFirst(text, o + |m.before|, Quoted(m.key));
    SkipStops(text, o, m.before);
    ReadsString(text, o + |m.before|, m.key, d);
  }

  lemma {:induction false} ReadsColon(text: JsString, o: nat, gap: JsString)
    requires At(text, o, gap + [COLON]) && AllSpace(gap)
    ensures ColonAt(text, o) == Some(o + |gap| + 1)
  {
    ReadsGap(text, o, gap, COLON);
  }

  lemma {:induction false} PairIs(text: JsString, o: nat, depth: nat, d: Dialect, read: set<JsString>, key: JsString,
                                  e: nat, c: nat, v: Json, f: nat)
    requires o <= |text| && StringAt(text, SkipSpace(text, o), d) == Some((key, e)) && key !in read
    requires ColonAt(text, e) == Some(c) && ValueAt(text, c, depth + 1, d) == Some((v, f))
    ensures PairAt(text, o, depth, d, read) == Some((key, v, f))
  {
  }

  /** Where the parts of a member lie: its key, its colon and its value. */
  lemma {:induction false} PairParts(text: JsString, o: nat, m: Member, d: Dialect)
    requires At(text, o, ShowPair(m)) && AllSpace(m.before) && AllSpace(m.gap) && Content(m.key, d).Some?
    ensures StringAt(text, SkipSpace(text, o), d) == Some((ContentOf(m.key, d), KeyEnd(o, m)))
    ensures ColonAt(text, KeyEnd(o, m)) == Some(KeyEnd(o, m) + |m.gap| + 1)
    ensures At(text, KeyEnd(o, m) + |m.gap| + 1, Show(m.node))
    ensures o + |ShowPair(m)| == KeyEnd(o, m) + |m.gap| + 1 + |Show(m.node)|
  {
    SplitsPair(text, o, m);
    ReadsKey(text, o, m, d);
    ReadsColon(text, KeyEnd(o, m), m.gap);
  }

  lemma {:induction false} ReadsPair(text: JsString, o: nat, m: Member, depth: nat, d: Dialect, read: set<JsString>)
    requires At(text, o, ShowPair(m)) && ContentOf(m.key, d) !in read
    requires AllSpace(m.before) && AllSpace(m.gap) && Content(m.key, d).Some? && Legal(m.node, depth + 1, d)
    ensures PairAt(text, o, depth, d, read) == Some((ContentOf(m.key, d), Meaning(m.node, d), o + |ShowPair(m)|))
    decreases m, 0
  {
    var e := KeyEnd(o, m);
    PairParts(text, o, m, d);
    ReadsNode(text, e + |m.gap| + 1, m.node, depth + 1, d);
    PairIs(text, o, depth, d, read, ContentOf(m.key, d), e, e + |m.gap| + 1, Meaning(m.node, d), o + |ShowPair(m)|);
  }

  lemma {:induction false} MembersIs(text: JsString, o: nat, depth: nat, d: Dialect, read: map<JsString, Json>,
                                     key: JsString, v: Json, e: nat, more: bool, f: nat)
    requires o <= |text| && PairAt(text, o, depth, d, read.Keys) == Some((key, v, e))
    requires AfterAt(text, e, CLOSE_BRACE) == Some((more, f))
    ensures MembersAt(text, o, depth, d, read)
         == if more then MembersAt(text, f, depth, d, read[key := v]) else Some((read[key := v], f))
  {
  }

  lemma {:induction false} ShowMembersIs(members: seq<Member>)
    requires members != []
    ensures ShowMembers(members) == ShowPair(members[0]) + members[0].after
            + if |members| == 1 then [CLOSE_BRACE] + [] else [COMMA] + ShowMembers(members[1..])
    ensures |ShowMembers(members)| == |ShowPair(members[0])| + |members[0].after| + 1
            + if |members| == 1 then 0 else |ShowMembers(members[1..])|
  {
  }

  lemma {:induction false} MemberMeaningsIs(members: seq<Member>, read: map<JsString, Json>, d: Dialect)
    requires members != []
    ensures var read1 := read[ContentOf(members[0].key, d) := Meaning(members[0].node, d)];
            MemberMeanings(members, read, d) == if |members| == 1 then read1 else MemberMeanings(members[1..], read1, d)
  {
    if |members| == 1 { assert members[1..] == []; }
  }

  /** Where the parts of a list of members lie. */
  lemma {:induction false} SplitsMembers(text: JsString, o: nat, members: seq<Member>, depth: nat, d: Dialect,
                                         read: set<JsString>)
    requires members != [] && At(text, o, ShowMembers(members)) && LegalMembers(members, depth, d, read)
    ensures var m, f := members[0], o + |ShowPair(members[0])| + |members[0].after| + 1;
            && At(text, o, ShowPair(m))
            && AfterAt(text, o + |ShowPair(m)|, CLOSE_BRACE) == Some((|members| > 1, f))
            && (|members| == 1 ==> o + |ShowMembers(members)| == f)
            && (|members| > 1 ==> At(text, f, ShowMembers(members[1..]))
                                  && o + |ShowMembers(members)| == f + |ShowMembers(members[1..])|)
  {
    var m := members[0];
    ShowMembersIs(members);
    if |members| == 1 {
      ReadsAfter(text, o, ShowPair(m), m.after, CLOSE_BRACE, [], CLOSE_BRACE);
    } else {
      ReadsAfter(text, o, ShowPair(m), m.after, COMMA, ShowMembers(members[1..]), CLOSE_BRACE);
    }
  }

  lemma {:induction false} LegalFirst(members: seq<Member>, depth: nat, d: Dialect, read: map<JsString, Json>, v: Json)
    requires members != [] && LegalMembers(members, depth, d, read.Keys)
    ensures var m, key := members[0], ContentOf(members[0].key, d);
            && AllSpace(m.before) && AllSpace(m.gap) && Content(m.key, d).Some? && key !in read
            && Legal(m.node, depth + 1, d) && LegalMembers(members[1..], depth, d, read[key := v].Keys)
  {
    var key := ContentOf(members[0].key, d);
    assert read[key := v].Keys == read.Keys + {key};
  }

  lemma {:induction false} MembersReadLast(text: JsString, o: nat, members: seq<Member>, depth: nat, d: Dialect,
                                           read: map<JsString, Json>, key: JsString, v: Json, e: nat, f: nat)
    requires |members| == 1 && o + |ShowMembers(members)| == f
    requires FirstRead(text, o, members, depth, d, read.Keys, key, v, e, f)
    ensures MembersRead(text, o, members, depth, d, read)
  {
    MembersIs(text, o, depth, d, read, key, v, e, false, f);
    MemberMeaningsIs(members, read, d);
  }

  lemma {:induction false} MembersReadMore(text: JsString, o: nat, members: seq<Member>, rest: seq<Member>,
                                           depth: nat, d: Dialect, read: map<JsString, Json>,
                                           read1: map<JsString, Json>, key: JsString, v: Json, e: nat, f: nat)
    requires |members| > 1 && rest == members[1..] && o <= |text|
    requires o + |ShowMembers(members)| == f + |ShowMembers(rest)|
    requires FirstRead(text, o, members, depth, d, read.Keys, key, v, e, f) && read1 == read[key := v]
    requires MembersRead(text, f, rest, depth, d, read1)
    ensures MembersRead(text, o, members, depth, d, read)
  {
    MembersIs(text, o, depth, d, read, key, v, e, true, f);
    MemberMeaningsIs(members, read, d);
    SameSpelling(MembersAt(text, f, depth, d, read1), o, members, f, rest, d, read, read1);
  }

  lemma {:induction false} SameSpelling(r: Option<(map<JsString, Json>, nat)>, o: nat, members: seq<Member>, f: nat,
                                        rest: seq<Member>, d: Dialect, read: map<JsString, Json>,
                                        read1: map<JsString, Json>)
    requires MembersSpelled(r, f, rest, d, read1)
    requires MemberMeanings(members, read, d) == MemberMeanings(rest, read1, d)
    requires o + |ShowMembers(members)| == f + |ShowMembers(rest)|
    ensures MembersSpelled(r, o, members, d, read)
  {
  }

  /** The first member has been read up to offset e, and the mark behind it up to f. */
  ghost predicate FirstRead(text: JsString, o: nat, members: seq<Member>, depth: nat, d: Dialect, read: set<JsString>,
                            key: JsString, v: Json, e: nat, f: nat)
    requires members != []
  {
    && o <= |text| && e <= |text|
    && key == ContentOf(members[0].key, d) && v == Meaning(members[0].node, d)
    && PairAt(text, o, depth, d, read) == Some((key, v, e))
    && AfterAt(text, e, CLOSE_BRACE) == Some((|members| > 1, f))
  }

  lemma {:induction false} ReadsFirst(text: JsString, o: nat, members: seq<Member>, depth: nat, d: Dialect,
                                      read: map<JsString, Json>, key: JsString, v: Json, e: nat, f: nat)
    requires members != [] && At(text, o, ShowMembers(members)) && LegalMembers(members, depth, d, read.Keys)
    requires key == ContentOf(members[0].key, d) && v == Meaning(members[0].node, d)
    requires e == o + |ShowPair(members[0])| && f == e + |members[0].after| + 1
    ensures FirstRead(text, o, members, depth, d, read.Keys, key, v, e, f)
    decreases members, 0
  {
    SplitsMembers(text, o, members, depth, d, read.Keys);
    LegalFirst(members, depth, d, read, v);
    ReadsPair(text, o, members[0], depth, d, read.Keys);
  }

  lemma {:induction false} ReadsMembers(text: JsString, o: nat, members: seq<Member>, depth: nat, d: Dialect,
                                        read: map<JsString, Json>)
    requires members != [] && At(text, o, ShowMembers(members)) && LegalMembers(members, depth, d, read.Keys)
    ensures MembersRead(text, o, members, depth, d, read)
    decreases members, 1
  {
    var m := members[0];
    var key, v := ContentOf(m.key, d), Meaning(m.node, d);
    var e := o + |ShowPair(m)|;
    var f := e + |m.after| + 1;
    SplitsMembers(text, o, members, depth, d, read.Keys);
    ReadsFirst(text, o, members, depth, d, read, key, v, e, f);
    if |members| == 1 {
      MembersReadLast(text, o, members, depth, d, read, key, v, e, f);
    } else {
      var rest, read1 := members[1..], read[key := v];
      LegalFirst(members, depth, d, read, v);
      ReadsMembers(text, f, rest, depth, d, read1);
      MembersReadMore(text, o, members, rest, depth, d, read, read1, key, v, e, f);
    }
  }

  // ----- whatever is read is a legal tree -----

  lemma {:induction false} BuildsSpace(text: JsString, o: nat) returns (space: JsString)
    requires o <= |text|
    ensures AllSpace(space) && At(text, o, space) && o + |space| == SkipSpace(text, o)
  {
    SkipIsSpace(text, o);
    space := text[o..SkipSpace(text, o)];
    AtSlice(text, o, SkipSpace(text, o));
  }

  /** Space up to a given mark, with the mark. */
  lemma {:induction false} BuildsGap(text: JsString, o: nat, c: int) returns (gap: JsString)
    requires o <= |text| && UnitAt(text, SkipSpace(text, o)) == c && c >= 0
    ensures AllSpace(gap) && At(text, o, gap + [c]) && o + |gap| == SkipSpace(text, o)
  {
    gap := BuildsSpace(text, o);
    AtUnit(text, o + |gap|, c);
    AtSplit(text, o, gap, [c]);
  }

  lemma {:induction false} BuildsMarked(text: JsString, o: nat, c: int, rest: JsString)
    requires o < |text| && text[o] == c && At(text, o + 1, rest)
    ensures At(text, o, [c] + rest)
  {
    AtUnit(text, o, c);
    AtSplit(text, o, [c], rest);
  }

  /** The tree of a value whose first unit has been reached. */
  ghost predicate BodyBuilt(text: JsString, start: nat, b: Body, depth: nat, d: Dialect, v: Json, e: nat) {
    Legal(Node([], b), depth, d) && Meaning(Node([], b), d) == v && At(text, start, ShowBody(b)) && start + |ShowBody(b)| == e
  }

  ghost predicate NodeBuilt(text: JsString, o: nat, n: Node, depth: nat, d: Dialect, v: Json, e: nat) {
    Legal(n, depth, d) && Meaning(n, d) == v && At(text, o, Show(n)) && o + |Show(n)| == e
  }

  lemma {:induction false} WithSpace(text: JsString, o: nat, space: JsString, b: Body, depth: nat, d: Dialect,
                                     v: Json, e: nat)
    requires AllSpace(space) && At(text, o, space) && BodyBuilt(text, o + |space|, b, depth, d, v, e)
    ensures NodeBuilt(text, o, Node(space, b), depth, d, v, e)
  {
    AtSplit(text, o, space, ShowBody(b));
  }

  lemma {:induction false} BuildsNode(text: JsString, o: nat, depth: nat, d: Dialect) returns (n: Node)
    requires o <= |text| && ValueAt(text, o, depth, d).Some?
    ensures NodeBuilt(text, o, n, depth, d, ValueAt(text, o, depth, d).value.0, ValueAt(text, o, depth, d).value.1)
    decreases |text| - o, 2
  {
    var space := BuildsSpace(text, o);
    SkipFirstValue(text, o, depth, d);
    var b := BuildsBody(text, SkipSpace(text, o), depth, d);
    n := Node(space, b);
    WithSpace(text, o, space, b, depth, d, ValueAt(text, o, depth, d).value.0, ValueAt(text, o, depth, d).value.1);
  }

  lemma {:induction false} BuildsBody(text: JsString, start: nat, depth: nat, d: Dialect) returns (b: Body)
    requires start <= |text| && SkipSpace(text, start) == start && ValueAt(text, start, depth, d).Some?
    ensures BodyBuilt(text, start, b, depth, d, ValueAt(text, start, depth, d).value.0, ValueAt(text, start, depth, d).value.1)
    decreases |text| - start, 1
  {
    var c := UnitAt(text, start);
    if c == QUOTE {
      var inner := BuildsString(text, start, d);
      b := StringToken(inner);
    } else if c == OPEN_BRACKET {
      b := BuildsArray(text, start, depth, d);
    } else if c == OPEN_BRACE {
      b := BuildsObject(text, start, depth, d);
    } else {
      b := if At(text, start, NullText()) then NullToken
           else if At(text, start, TrueText()) then TrueToken else FalseToken;
    }
  }

  lemma {:induction false} BuildsArray(text: JsString, start: nat, depth: nat, d: Dialect) returns (b: Body)
    requires start < |text| && text[start] == OPEN_BRACKET && depth <= d.maxDepth
    requires SkipSpace(text, start) == start && ValueAt(text, start, depth, d).Some?
    ensures BodyBuilt(text, start, b, depth, d, ValueAt(text, start, depth, d).value.0, ValueAt(text, start, depth, d).value.1)
    decreases |text| - start, 0
  {
    if UnitAt(text, SkipSpace(text, start + 1)) == CLOSE_BRACKET {
      var gap := BuildsGap(text, start + 1, CLOSE_BRACKET);
      b := EmptyArray(gap);
      BuildsMarked(text, start, OPEN_BRACKET, gap + [CLOSE_BRACKET]);
      assert ShowBody(b) == [OPEN_BRACKET] + (gap + [CLOSE_BRACKET]);
    } else {
      SkipFirstItems(text, start + 1, depth, d);
      var items := BuildsItems(text, start + 1, depth, d);
      b := ArrayOf(items);
      BuildsMarked(text, start, OPEN_BRACKET, ShowItems(items));
    }
  }

  ghost predicate ItemsBuilt(text: JsString, o: nat, items: seq<Item>, depth: nat, d: Dialect, vs: seq<Json>, e: nat) {
    && items != [] && LegalItems(items, depth, d) && ItemMeanings(items, d) == vs
    && At(text, o, ShowItems(items)) && o + |ShowItems(items)| == e
  }

  lemma {:induction false} ItemBuiltLast(text: JsString, o: nat, n: Node, after: JsString, depth: nat, d: Dialect,
                                         v: Json)
    requires NodeBuilt(text, o, n, depth + 1, d, v, o + |Show(n)|) && AllSpace(after)
    requires At(text, o + |Show(n)|, after + [CLOSE_BRACKET])
    ensures ItemsBuilt(text, o, [Item(n, after)], depth, d, [v], o + |Show(n)| + |after| + 1)
  {
    var items := [Item(n, after)];
    assert items[1..] == [];
    ShowItemsIs(items);
    ItemMeaningsIs(items, d);
    AtSplit(text, o, Show(n), after + [CLOSE_BRACKET]);
    assert ShowItems(items) == Show(n) + (after + [CLOSE_BRACKET]);
  }

  lemma {:induction false} JoinedAt(text: JsString, o: nat, a: JsString, b: JsString, c: JsString)
    requires At(text, o, a) && At(text, o + |a|, b) && At(text, o + |a| + |b|, c)
    ensures At(text, o, a + (b + c))
  {
    AtSplit(text, o + |a|, b, c);
    AtSplit(text, o, a, b + c);
  }

  lemma {:induction false} ItemTextMore(text: JsString, o: nat, n: Node, after: JsString, rest: seq<Item>)
    requires rest != [] && At(text, o, Show(n)) && At(text, o + |Show(n)|, after + [COMMA])
    requires At(text, o + |Show(n)| + |after| + 1, ShowItems(rest))
    ensures At(text, o, ShowItems([Item(n, after)] + rest))
    ensures |ShowItems([Item(n, after)] + rest)| == |Show(n)| + |after| + 1 + |ShowItems(rest)|
  {
    var items := [Item(n, after)] + rest;
    assert items[1..] == rest;
    ShowItemsIs(items);
    JoinedAt(text, o, Show(n), after + [COMMA], ShowItems(rest));
    assert ShowItems(items) == Show(n) + (after + [COMMA] + ShowItems(rest));
  }

  lemma {:induction false} ItemLegalMore(n: Node, after: JsString, rest: seq<Item>, depth: nat, d: Dialect)
    requires rest != [] && Legal(n, depth + 1, d) && AllSpace(after) && LegalItems(rest, depth, d)
    ensures LegalItems([Item(n, after)] + rest, depth, d)
    ensures ItemMeanings([Item(n, after)] + rest, d) == [Meaning(n, d)] + ItemMeanings(rest, d)
  {
    var items := [Item(n, after)] + rest;
    assert items[1..] == rest;
    ItemMeaningsIs(items, d);
  }

  lemma {:induction false} ItemBuiltMore(text: JsString, o: nat, n: Node, after: JsString, rest: seq<Item>,
                                         depth: nat, d: Dialect, v: Json, vs: seq<Json>, e: nat)
    requires NodeBuilt(text, o, n, depth + 1, d, v, o + |Show(n)|) && AllSpace(after)
    requires At(text, o + |Show(n)|, after + [COMMA])
    requires ItemsBuilt(text, o + |Show(n)| + |after| + 1, rest, depth, d, vs, e)
    ensures ItemsBuilt(text, o, [Item(n, after)] + rest, depth, d, [v] + vs, e)
  {
    ItemTextMore(text, o, n, after, rest);
    ItemLegalMore(n, after, rest, depth, d);
  }

  lemma {:induction false} BuildsItems(text: JsString, o: nat, depth: nat, d: Dialect) returns (items: seq<Item>)
    requires o <= |text| && ItemsAt(text, o, depth, d).Some?
    ensures ItemsBuilt(text, o, items, depth, d, ItemsAt(text, o, depth, d).value.0, ItemsAt(text, o, depth, d).value.1)
    decreases |text| - o, 3
  {
    var n := BuildsNode(text, o, depth + 1, d);
    var (v, e) := ValueAt(text, o, depth + 1, d).value;
    var (more, f) := AfterAt(text, e, CLOSE_BRACKET).value;
    var after := BuildsGap(text, e, if more then COMMA else CLOSE_BRACKET);
    if more {
      var rest := BuildsItems(text, f, depth, d);
      var (vs, end) := ItemsAt(text, f, depth, d).value;
      items := [Item(n, after)] + rest;
      ItemsMore(text, o, depth, d, v, e, f, vs, end);
      ItemBuiltMore(text, o, n, after, rest, depth, d, v, vs, end);
    } else {
      items := [Item(n, after)];
      ItemsLast(text, o, depth, d, v, e, f);
      ItemBuiltLast(text, o, n, after, depth, d, v);
    }
  }

  lemma {:induction false} BuildsObject(text: JsString, start: nat, depth: nat, d: Dialect) returns (b: Body)
    requires start < |text| && text[start] == OPEN_BRACE && depth <= d.maxDepth
    requires SkipSpace(text, start) == start && ValueAt(text, start, depth, d).Some?
    ensures BodyBuilt(text, start, b, depth, d, ValueAt(text, start, depth, d).value.0, ValueAt(text, start, depth, d).value.1)
    decreases |text| - start, 0
  {
    if UnitAt(text, SkipSpace(text, start + 1)) == CLOSE_BRACE {
      var gap := BuildsGap(text, start + 1, CLOSE_BRACE);
      b := EmptyObject(gap);
      BuildsMarked(text, start, OPEN_BRACE, gap + [CLOSE_BRACE]);
      assert ShowBody(b) == [OPEN_BRACE] + (gap + [CLOSE_BRACE]);
    } else {
      SkipFirstMembers(text, start + 1, depth, d, map[]);
      var nothing: map<JsString, Json> := map[];
      assert nothing.Keys == {};
      var members := BuildsMembers(text, start + 1, depth, d, nothing);
      b := ObjectOf(members);
      BuildsMarked(text, start, OPEN_BRACE, ShowMembers(members));
    }
  }

  /** A key, its colon and its value, as one member still without the space behind it. */
  ghost predicate PairBuilt(text: JsString, o: nat, m: Member, depth: nat, d: Dialect, key: JsString, v: Json, e: nat) {
    && AllSpace(m.before) && AllSpace(m.gap) && Content(m.key, d) == Some(key)
    && Legal(m.node, depth + 1, d) && Meaning(m.node, d) == v
    && At(text, o, ShowPair(m)) && o + |ShowPair(m)| == e
  }

  lemma {:induction false} JoinsPair(text: JsString, o: nat, m: Member)
    requires At(text, o, m.before) && At(text, o + |m.before|, Quoted(m.key))
    requires At(text, KeyEnd(o, m), m.gap + [COLON]) && At(text, KeyEnd(o, m) + |m.gap| + 1, Show(m.node))
    ensures At(text, o, ShowPair(m))
  {
    AtSplit(text, o, m.before, Quoted(m.key));
    AtSplit(text, o, m.before + Quoted(m.key), m.gap + [COLON]);
    assert m.before + Quoted(m.key) + m.gap + [COLON] == (m.before + Quoted(m.key)) + (m.gap + [COLON]);
    AtSplit(text, o, m.before + Quoted(m.key) + m.gap + [COLON], Show(m.node));
  }

  lemma {:induction false} BuildsPair(text: JsString, o: nat, depth: nat, d: Dialect, read: set<JsString>)
    returns (m: Member)
    requires o <= |text| && PairAt(text, o, depth, d, read).Some?
    ensures m.after == []
    ensures var (key, v, e) := PairAt(text, o, depth, d, read).value;
            key !in read && PairBuilt(text, o, m, depth, d, key, v, e)
    decreases |text| - o, 3
  {
    var before := BuildsSpace(text, o);
    var start := SkipSpace(text, o);
    var inner := BuildsString(text, start, d);
    var e := StringAt(text, start, d).value.1;
    var gap := BuildsGap(text, e, COLON);
    var n := BuildsNode(text, ColonAt(text, e).value, depth + 1, d);
    m := Member(before, inner, gap, n, []);
    JoinsPair(text, o, m);
  }

  ghost predicate MembersBuilt(text: JsString, o: nat, members: seq<Member>, depth: nat, d: Dialect,
                               read: map<JsString, Json>, vs: map<JsString, Json>, e: nat) {
    && members != [] && LegalMembers(members, depth, d, read.Keys) && MemberMeanings(members, read, d) == vs
    && At(text, o, ShowMembers(members)) && o + |ShowMembers(members)| == e
  }

  lemma {:induction false} MemberBuiltLast(text: JsString, o: nat, m: Member, depth: nat, d: Dialect,
                                           read: map<JsString, Json>, key: JsString, v: Json)
    requires PairBuilt(text, o, m, depth, d, key, v, o + |ShowPair(m)|) && AllSpace(m.after) && key !in read
    requires At(text, o + |ShowPair(m)|, m.after + [CLOSE_BRACE])
    ensures MembersBuilt(text, o, [m], depth, d, read, read[key := v], o + |ShowPair(m)| + |m.after| + 1)
  {
    var members := [m];
    assert members[1..] == [];
    ShowMembersIs(members);
    MemberMeaningsIs(members, read, d);
    AtSplit(text, o, ShowPair(m), m.after + [CLOSE_BRACE]);
    assert ShowMembers(members) == ShowPair(m) + (m.after + [CLOSE_BRACE]);
  }

  lemma {:induction false} MemberBuiltMore(text: JsString, o: nat, m: Member, rest: seq<Member>, depth: nat,
                                           d: Dialect, read: map<JsString, Json>, key: JsString, v: Json,
                                           vs: map<JsString, Json>, e: nat)
    requires PairBuilt(text, o, m, depth, d, key, v, o + |ShowPair(m)|) && AllSpace(m.after) && key !in read
    requires At(text, o + |ShowPair(m)|, m.after + [COMMA])
    requires MembersBuilt(text, o + |ShowPair(m)| + |m.after| + 1, rest, depth, d, read[key := v], vs, e)
    ensures MembersBuilt(text, o, [m] + rest, depth, d, read, vs, e)
  {
    var members := [m] + rest;
    assert members[1..] == rest;
    assert read[key := v].Keys == read.Keys + {key};
    ShowMembersIs(members);
    MemberMeaningsIs(members, read, d);
    AtSplit(text, o + |ShowPair(m)|, m.after + [COMMA], ShowMembers(rest));
    AtSplit(text, o, ShowPair(m), m.after + [COMMA] + ShowMembers(rest));
    assert ShowMembers(members) == ShowPair(m) + (m.after + [COMMA] + ShowMembers(rest));
  }

  /** One member with the space behind it. */
  lemma {:induction false} BuildsMember(text: JsString, o: nat, depth: nat, d: Dialect, read: set<JsString>,
                                        key: JsString, v: Json, e: nat, more: bool, f: nat)
    returns (m: Member)
    requires o <= |text| && PairAt(text, o, depth, d, read) == Some((key, v, e))
    requires AfterAt(text, e, CLOSE_BRACE) == Some((more, f))
    ensures PairBuilt(text, o, m, depth, d, key, v, e) && AllSpace(m.after) && key !in read
    ensures At(text, e, m.after + [if more then COMMA else CLOSE_BRACE]) && f == e + |m.after| + 1
    decreases |text| - o, 4
  {
    var pair := BuildsPair(text, o, depth, d, read);
    var after := BuildsGap(text, e, if more then COMMA else CLOSE_BRACE);
    m := pair.(after := after);
    assert ShowPair(m) == ShowPair(pair);
  }

  lemma {:induction false} BuildsMembers(text: JsString, o: nat, depth: nat, d: Dialect, read: map<JsString, Json>)
    returns (members: seq<Member>)
    requires o <= |text| && MembersAt(text, o, depth, d, read).Some?
    ensures MembersBuilt(text, o, members, depth, d, read, MembersAt(text, o, depth, d, read).value.0,
                         MembersAt(text, o, depth, d, read).value.1)
    decreases |text| - o, 5
  {
    var (key, v, e) := PairAt(text, o, depth, d, read.Keys).value;
    var (more, f) := AfterAt(text, e, CLOSE_BRACE).value;
    var m := BuildsMember(text, o, depth, d, read.Keys, key, v, e, more, f);
    MembersIs(text, o, depth, d, read, key, v, e, more, f);
    if more {
      var rest := BuildsMembers(text, f, depth, d, read[key := v]);
      var (vs, end) := MembersAt(text, f, depth, d, read[key := v]).value;
      members := [m] + rest;
      MemberBuiltMore(text, o, m, rest, depth, d, read, key, v, vs, end);
    } else {
      members := [m];
      MemberBuiltLast(text, o, m, depth, d, read, key, v);
    }
  }

  // ----- the reader is the grammar -----

  /** A text is accepted with value v exactly when it is a legal tree of that meaning, and space. */
  ghost predicate Spells(text: JsString, n: Node, tail: JsString, d: Dialect, v: Json) {
    Legal(n, 1, d) && AllSpace(tail) && text == Show(n) + tail && Meaning(n, d) == v
  }

  lemma {:induction false} ParseSpells(text: JsString, d: Dialect) returns (n: Node, tail: JsString)
    requires Parse(text, d).Some?
    ensures Spells(text, n, tail, d, Parse(text, d).value)
  {
    n := BuildsNode(text, 0, 1, d);
    var e := ValueAt(text, 0, 1, d).value.1;
    tail := BuildsSpace(text, e);
    AtSplit(text, 0, Show(n), tail);
    SliceAt(text, 0, Show(n) + tail);
  }

  lemma {:induction false} SpelledParses(text: JsString, n: Node, tail: JsString, d: Dialect, v: Json)
    requires Spells(text, n, tail, d, v)
    ensures Parse(text, d) == Some(v)
  {
    assert At(text, 0, text);
    AtSplit(text, 0, Show(n), tail);
    ReadsWhole(text, n, tail, d);
  }

  lemma {:induction false} ReadsWhole(text: JsString, n: Node, tail: JsString, d: Dialect)
    requires Legal(n, 1, d) && AllSpace(tail) && At(text, 0, Show(n)) && At(text, |Show(n)|, tail)
    requires |text| == |Show(n)| + |tail|
    ensures Parse(text, d) == Some(Meaning(n, d))
  {
    ReadsNode(text, 0, n, 1, d);
    SkipExactly(text, |Show(n)|, tail);
  }

  /** The reader accepts exactly the language of legal trees: it consumes the whole text, and no
      object in it repeats a key. */
  lemma {:induction false} ParsesExactly(text: JsString, d: Dialect, v: Json)
    ensures Parse(text, d) == Some(v) <==> exists n, tail :: Spells(text, n, tail, d, v)
  {
    if Parse(text, d) == Some(v) {
      var n, tail := ParseSpells(text, d);
    }
    if exists n, tail :: Spells(text, n, tail, d, v) {
      var n, tail :| Spells(text, n, tail, d, v);
      SpelledParses(text, n, tail, d, v);
    }
  }
}
