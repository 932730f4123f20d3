/** The JSON texts exchanged with agents: strings, booleans, null, arrays and objects, no numbers.
    Texts are sequences of UTF-16 code units. Section 7 of RFC 8259 gives the string syntax and
    sections 3.2.2.2 and 3.2.3 of RFC 8785 the canonical form. */
module AgentJson {
  import opened Outcomes
  import opened Sums
  import opened Sorting
  import opened Unicode

  datatype Json =
    | Null
    | Bool(b: bool)
    | Str(s: JsString)
    | Arr(items: seq<Json>)
    | Obj(members: map<JsString, Json>)

  /** What a reader admits: how deep values nest, and whether strings must be free of control
      characters and unpaired surrogates. */
  datatype Dialect = Dialect(maxDepth: nat, plainText: bool)

  const AGENT := Dialect(16, true)
  const MAX_USAGE_BYTES := 65536
  const MAX_ENVELOPE_BYTES := 98304

  const QUOTE: int := '\"' as int
  const BACKSLASH: int := '\\' as int
  const COMMA: int := ',' as int
  const COLON: int := ':' as int
  const OPEN_BRACKET: int := '[' as int
  const CLOSE_BRACKET: int := ']' as int
  const OPEN_BRACE: int := '{' as int
  const CLOSE_BRACE: int := '}' as int

  function Ascii(s: string): (r: JsString)
    ensures |r| == |s|
  {
    seq(|s|, i requires 0 <= i < |s| => s[i] as int)
  }

  function NullText(): JsString { Ascii("null") }
  function TrueText(): JsString { Ascii("true") }
  function FalseText(): JsString { Ascii("false") }

  predicate IsSpace(u: int) {
    u == 32 || u == 10 || u == 13 || u == 9
  }

  // ----- strings -----

  function HexDigit(n: int): int { if n < 10 then '0' as int + n else 'a' as int + (n - 10) }

  function HexValue(c: int): Option<int> {
    if '0' as int <= c <= '9' as int then Some(c - '0' as int)
    else if 'a' as int <= c <= 'f' as int then Some(c - 'a' as int + 10)
    else if 'A' as int <= c <= 'F' as int then Some(c - 'A' as int + 10)
    else None
  }

  /** The unit that a letter after a backslash stands for. */
  function EscapeValue(c: int): Option<int> {
    if c == QUOTE || c == BACKSLASH || c == '/' as int then Some(c)
    else if c == 'b' as int then Some(8)
    else if c == 'f' as int then Some(12)
    else if c == 'n' as int then Some(10)
    else if c == 'r' as int then Some(13)
    else if c == 't' as int then Some(9)
    else None
  }

  function FourHex(a: int, b: int, c: int, d: int): Option<int> {
    if HexValue(a).None? || HexValue(b).None? || HexValue(c).None? || HexValue(d).None? then None
    else Some(((HexValue(a).value * 16 + HexValue(b).value) * 16 + HexValue(c).value) * 16 + HexValue(d).value)
  }

  /** The first unit of the content of a string, and how many units spell it. */
  function UnescapeOne(inner: JsString): (r: Option<(int, nat)>)
    requires inner != []
    ensures r.Some? ==> 1 <= r.value.1 <= |inner|
  {
    var c := inner[0];
    if c == BACKSLASH then
      if |inner| < 2 then None
      else if inner[1] == 'u' as int then
        if |inner| < 6 || FourHex(inner[2], inner[3], inner[4], inner[5]).None? then None
        else Some((FourHex(inner[2], inner[3], inner[4], inner[5]).value, 6))
      else if EscapeValue(inner[1]).None? then None
      else Some((EscapeValue(inner[1]).value, 2))
    else if c == QUOTE || c < 32 then None
    else Some((c, 1))
  }

  /** The content between the quotes of a JSON string. */
  function Unescape(inner: JsString): Option<JsString> {
    if inner == [] then Some([])
    else
      match UnescapeOne(inner)
      case None => None
      case Some((u, n)) =>
        match Unescape(inner[n..])
        case None => None
        case Some(rest) => Some([u] + rest)
  }

  predicate AdmittedPoint(p: int) {
    32 <= p && p != 127 && !IsSurrogate(p)
  }

  predicate Admitted(s: JsString) {
    forall i :: 0 <= i < |Points(s)| ==> AdmittedPoint(Points(s)[i])
  }

  /** The string that `inner` spells, if the dialect admits it. */
  function Content(inner: JsString, d: Dialect): Option<JsString> {
    match Unescape(inner)
    case None => None
    case Some(s) => if d.plainText && !Admitted(s) then None else Some(s)
  }

  /** The closing quote, reading from i and skipping whatever follows a backslash. */
  function CloseAt(text: JsString, i: nat): (r: Option<nat>)
    ensures r.Some? ==> i <= r.value < |text| && text[r.value] == QUOTE
    decreases |text| - i
  {
    if i >= |text| then None
    else if text[i] == BACKSLASH then CloseAt(text, i + 2)
    else if text[i] == QUOTE then Some(i)
    else CloseAt(text, i + 1)
  }

  function StringAt(text: JsString, o: nat, d: Dialect): (r: Option<(JsString, nat)>)
    ensures r.Some? ==> o < r.value.1 <= |text|
  {
    if o >= |text| || text[o] != QUOTE then None
    else
      match CloseAt(text, o + 1)
      case None => None
      case Some(j) =>
        match Content(text[o + 1..j], d)
        case None => None
        case Some(s) => Some((s, j + 1))
  }

  // ----- values -----

  function SkipSpace(text: JsString, o: nat): (r: nat)
    requires o <= |text|
    ensures o <= r <= |text|
    decreases |text| - o
  {
    if o < |text| && IsSpace(text[o]) then SkipSpace(text, o + 1) else o
  }

  predicate At(text: JsString, o: nat, s: JsString) {
    o + |s| <= |text| && forall k :: 0 <= k < |s| ==> text[o + k] == s[k]
  }

  /** The unit at o, or -1 past the end. */
  function UnitAt(text: JsString, o: nat): int {
    if o < |text| then text[o] else -1
  }

  function LiteralAt(text: JsString, o: nat): (r: Option<(Json, nat)>)
    ensures r.Some? ==> o < r.value.1 <= |text|
  {
    if At(text, o, NullText()) then Some((Null, o + 4))
    else if At(text, o, TrueText()) then Some((Bool(true), o + 4))
    else if At(text, o, FalseText()) then Some((Bool(false), o + 5))
    else None
  }

  /** The value that starts at o, and the offset behind it. */
  function ValueAt(text: JsString, o: nat, depth: nat, d: Dialect): (r: Option<(Json, nat)>)
    requires o <= |text|
    ensures r.Some? ==> o < r.value.1 <= |text|
    decreases |text| - o, 0
  {
    if depth > d.maxDepth then None
    else
      var start := SkipSpace(text, o);
      var c := UnitAt(text, start);
      if c == QUOTE then
        match StringAt(text, start, d)
        case None => None
        case Some((s, e)) => Some((Str(s), e))
      else if c == OPEN_BRACE then
        var first := SkipSpace(text, start + 1);
        if UnitAt(text, first) == CLOSE_BRACE then Some((Obj(map[]), first + 1))
        else
          match MembersAt(text, first, depth, d, map[])
          case None => None
          case Some((m, e)) => Some((Obj(m), e))
      else if c == OPEN_BRACKET then
        var first := SkipSpace(text, start + 1);
        if UnitAt(text, first) == CLOSE_BRACKET then Some((Arr([]), first + 1))
        else
          match ItemsAt(text, first, depth, d)
          case None => None
          case Some((items, e)) => Some((Arr(items), e))
      else LiteralAt(text, start)
  }

  /** Behind an element: the closing mark (no more) or a comma (more). */
  function AfterAt(text: JsString, o: nat, close: int): (r: Option<(bool, nat)>)
    requires o <= |text|
    ensures r.Some? ==> o < r.value.1
    ensures r.Some? && 0 <= close ==> r.value.1 <= |text|
  {
    var sep := SkipSpace(text, o);
    if UnitAt(text, sep) == close then Some((false, sep + 1))
    else if UnitAt(text, sep) == COMMA then Some((true, sep + 1))
    else None
  }

  /** The items from o to the closing bracket. */
  function ItemsAt(text: JsString, o: nat, depth: nat, d: Dialect): (r: Option<(seq<Json>, nat)>)
    requires o <= |text|
    ensures r.Some? ==> o < r.value.1 <= |text|
    decreases |text| - o, 2
  {
    match ValueAt(text, o, depth + 1, d)
    case None => None
    case Some((v, e)) =>
      match AfterAt(text, e, CLOSE_BRACKET)
      case None => None
      case Some((more, f)) =>
        if !more then Some(([v], f))
        else
          match ItemsAt(text, f, depth, d)
          case None => None
          case Some((rest, end)) => Some(([v] + rest, end))
  }

  /** The offset behind the colon that follows a key. */
  function ColonAt(text: JsString, o: nat): (r: Option<nat>)
    requires o <= |text|
    ensures r.Some? ==> o < r.value <= |text|
  {
    var colon := SkipSpace(text, o);
    if UnitAt(text, colon) == COLON then Some(colon + 1) else None
  }

  /** One member: a key that has not been read yet, a colon, and a value. */
  function PairAt(text: JsString, o: nat, depth: nat, d: Dialect, read: set<JsString>): (r: Option<(JsString, Json,
                  nat)>)
    requires o <= |text|
    ensures r.Some? ==> o < r.value.2 <= |text|
    decreases |text| - o, 1
  {
    match StringAt(text, SkipSpace(text, o), d)
    case None => None
    case Some((key, e)) =>
      if key in read || ColonAt(text, e).None? then None
      else
        match ValueAt(text, ColonAt(text, e).value, depth + 1, d)
        case None => None
        case Some((v, f)) => Some((key, v, f))
  }

  /** The members from o to the closing brace, added to those already read. */
  function MembersAt(text: JsString, o: nat, depth: nat, d: Dialect, read: map<JsString, Json>)
    : (r: Option<(map<JsString, Json>, nat)>)
    requires o <= |text|
    ensures r.Some? ==> o < r.value.1 <= |text|
    decreases |text| - o, 2
  {
    match PairAt(text, o, depth, d, read.Keys)
    case None => None
    case Some((key, v, e)) =>
      match AfterAt(text, e, CLOSE_BRACE)
      case None => None
      case Some((more, f)) =>
        if more then MembersAt(text, f, depth, d, read[key := v]) else Some((read[key := v], f))
  }

  /** A whole text: one value and nothing but white space behind it. */
  function Parse(text: JsString, d: Dialect): Option<Json> {
    match ValueAt(text, 0, 1, d)
    case None => None
    case Some((v, e)) => if SkipSpace(text, e) == |text| then Some(v) else None
  }

  /** The same for bytes, within a budget. */
  function ParseBytes(raw: seq<int>, maxBytes: nat, d: Dialect): Option<(JsString, Json)> {
    if |raw| > maxBytes then None
    else
      match Decode(raw)
      case None => None
      case Some(points) =>
        match Parse(Units(points), d)
        case None => None
        case Some(v) => Some((Units(points), v))
  }

  // ----- the canonical form -----

  function UnicodeEscape(u: int): JsString {
    [BACKSLASH, 'u' as int, HexDigit(u / 4096), HexDigit(u / 256 % 16), HexDigit(u / 16 % 16), HexDigit(u % 16)]
  }

  /** One unit as JSON.stringify writes it, when it is not half of a surrogate pair. */
  function EscapeUnit(u: int): JsString {
    if u == QUOTE || u == BACKSLASH then [BACKSLASH, u]
    else if u == 8 then [BACKSLASH, 'b' as int]
    else if u == 12 then [BACKSLASH, 'f' as int]
    else if u == 10 then [BACKSLASH, 'n' as int]
    else if u == 13 then [BACKSLASH, 'r' as int]
    else if u == 9 then [BACKSLASH, 't' as int]
    else if u < 32 || IsSurrogate(u) then UnicodeEscape(u)
    else [u]
  }

  function Escape(s: JsString): JsString {
    if s == [] then []
    else if FirstPoint(s).1 == 2 then s[..2] + Escape(s[2..])
    else EscapeUnit(s[0]) + Escape(s[1..])
  }

  function Quote(s: JsString): JsString { [QUOTE] + Escape(s) + [QUOTE] }

  function ItselfAsText(): JsString -> JsString { (s: JsString) => s }

  /** The keys of an object in some order. */
  ghost function Enumerate(keys: set<JsString>): (r: seq<JsString>)
    ensures Distinct(r) && forall k :: k in r <==> k in keys
  {
    if keys == {} then []
    else
      var k :| k in keys;
      var rest := Enumerate(keys - {k});
      assert k !in rest;
      [k] + rest
  }

  /** Keys in the order of their code units. */
  ghost function SortedKeys(keys: set<JsString>): (r: seq<JsString>)
    ensures Distinct(r) && forall k :: k in r <==> k in keys
  {
    ByTextIsWeakOrder(ItselfAsText());
    SortKeeps(Enumerate(keys), ByText(ItselfAsText()));
    Sort(Enumerate(keys), ByText(ItselfAsText()))
  }

  ghost function Canonical(v: Json): JsString
    decreases v, 1, 0
  {
    match v
    case Null => NullText()
    case Bool(b) => if b then TrueText() else FalseText()
    case Str(s) => Quote(s)
    case Arr(items) => if items == [] then [OPEN_BRACKET, CLOSE_BRACKET] else [OPEN_BRACKET] + CanonicalItems(v, 0)
    case Obj(m) =>
      if m == map[] then [OPEN_BRACE, CLOSE_BRACE]
      else [OPEN_BRACE] + CanonicalMembers(v, SortedKeys(m.Keys))
  }

  /** The items from position i on, separated by commas, and the closing bracket. */
  ghost function CanonicalItems(v: Json, i: nat): JsString
    requires v.Arr? && i < |v.items|
    decreases v, 0, |v.items| - i
  {
    Canonical(v.items[i]) + if i + 1 == |v.items| then [CLOSE_BRACKET] else [COMMA] + CanonicalItems(v, i + 1)
  }

  ghost function CanonicalMembers(v: Json, keys: seq<JsString>): JsString
    requires v.Obj? && keys != [] && forall k :: k in keys ==> k in v.members
    decreases v, 0, |keys|
  {
    Quote(keys[0]) + [COLON] + Canonical(v.members[keys[0]])
      + if |keys| == 1 then [CLOSE_BRACE] else [COMMA] + CanonicalMembers(v, keys[1..])
  }
}
