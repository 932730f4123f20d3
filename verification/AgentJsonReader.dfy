/** The reader as it runs: one offset that moves over the text while arrays and objects fill. */
module AgentJsonReader {
  import opened Outcomes
  import opened Unicode
  import opened AgentJson

  /** The reader ended where the grammar says, with the value it says, or failed where it fails. */
  ghost predicate Follows<T>(expected: Option<(T, nat)>, got: Option<T>, offset: nat) {
    match expected
    case None => got.None?
    case Some((v, e)) => got == Some(v) && offset == e
  }

  class AgentJsonReader {
    const text: JsString
    const dialect: Dialect
    var offset: nat

    constructor (text: JsString, dialect: Dialect)
      ensures this.text == text && this.dialect == dialect && offset == 0
    {
      this.text, this.dialect, offset := text, dialect, 0;
    }

    method Whitespace()
      requires offset <= |text|
      modifies this
      ensures offset == SkipSpace(text, old(offset))
    {
      while offset < |text| && IsSpace(text[offset])
        invariant offset <= |text| && SkipSpace(text, offset) == SkipSpace(text, old(offset))
      {
        offset := offset + 1;
      }
    }

    method ReadString() returns (result: Option<JsString>)
      requires offset <= |text|
      modifies this
      ensures Follows(StringAt(text, old(offset), dialect), result, offset)
    {
      if offset >= |text| || text[offset] != QUOTE { return None; }
      var start := offset;
      offset := offset + 1;
      while offset < |text|
        invariant start < offset && CloseAt(text, offset) == CloseAt(text, start + 1)
      {
        var c := text[offset];
        offset := offset + 1;
        if c == BACKSLASH {
          offset := offset + 1;
        } else if c == QUOTE {
          result := Content(text[start + 1..offset - 1], dialect);
          return;
        }
      }
      result := None;
    }

    method ReadLiteral() returns (result: Option<Json>)
      requires offset <= |text|
      modifies this
      ensures Follows(LiteralAt(text, old(offset)), result, offset)
    {
      if At(text, offset, NullText()) {
        offset := offset + 4;
        return Some(Null);
      }
      if At(text, offset, TrueText()) {
        offset := offset + 4;
        return Some(Bool(true));
      }
      if At(text, offset, FalseText()) {
        offset := offset + 5;
        return Some(Bool(false));
      }
      result := None;
    }

    method ReadValue(depth: nat) returns (result: Option<Json>)
      requires offset <= |text|
      modifies this
      ensures Follows(ValueAt(text, old(offset), depth, dialect), result, offset)
      decreases |text| - offset, 0
    {
      if depth > dialect.maxDepth { return None; }
      Whitespace();
      var c := UnitAt(text, offset);
      if c == QUOTE {
        var s := ReadString();
        if s.None? { return None; }
        return Some(Str(s.value));
      }
      if c == OPEN_BRACE {
        offset := offset + 1;
        Whitespace();
        if UnitAt(text, offset) == CLOSE_BRACE {
          offset := offset + 1;
          return Some(Obj(map[]));
        }
        var members := ReadMembers(depth);
        if members.None? { return None; }
        return Some(Obj(members.value));
      }
      if c == OPEN_BRACKET {
        offset := offset + 1;
        Whitespace();
        if UnitAt(text, offset) == CLOSE_BRACKET {
          offset := offset + 1;
          return Some(Arr([]));
        }
        var items := ReadItems(depth);
        if items.None? { return None; }
        return Some(Arr(items.value));
      }
      result := ReadLiteral();
    }

    /** The mark behind an element: whether another element follows. */
    method ReadSeparator(close: int) returns (more: Option<bool>)
      requires offset <= |text| && 0 <= close
      modifies this
      ensures Follows(AfterAt(text, old(offset), close), more, offset)
    {
      Whitespace();
      var separator := UnitAt(text, offset);
      offset := offset + 1;
      more := if separator == close then Some(false) else if separator == COMMA then Some(true) else None;
    }

    method ReadItems(depth: nat) returns (result: Option<seq<Json>>)
      requires offset <= |text|
      modifies this
      ensures Follows(ItemsAt(text, old(offset), depth, dialect), result, offset)
      decreases |text| - offset, 1
    {
      var start := offset;
      ghost var expected := ItemsAt(text, start, depth, dialect);
      var items: seq<Json> := [];
      assert expected.Some? ==> items + expected.value.0 == expected.value.0;
      while true
        invariant start <= offset <= |text|
        invariant expected == Prepended(items, ItemsAt(text, offset, depth, dialect))
        decreases |text| - offset
      {
        ghost var here := offset;
        var v := ReadValue(depth + 1);
        if v.None? { return None; }
        var more := ReadSeparator(CLOSE_BRACKET);
        if more.None? { return None; }
        OneItem(here, depth, items, v.value, offset, more.value);
        items := items + [v.value];
        if !more.value { return Some(items); }
      }
      assert false;
    }

    ghost function Prepended(items: seq<Json>, rest: Option<(seq<Json>, nat)>): Option<(seq<Json>, nat)> {
      match rest
      case None => None
      case Some((more, e)) => Some((items + more, e))
    }

    /** What one round of the array loop contributes. */
    lemma {:induction false} OneItem(o: nat, depth: nat, items: seq<Json>, v: Json, f: nat, more: bool)
      requires o <= |text| && ValueAt(text, o, depth + 1, dialect).Some?
      requires ValueAt(text, o, depth + 1, dialect).value.0 == v
      requires AfterAt(text, ValueAt(text, o, depth + 1, dialect).value.1, CLOSE_BRACKET) == Some((more, f))
      ensures f <= |text|
      ensures Prepended(items, ItemsAt(text, o, depth, dialect))
           == if more then Prepended(items + [v], ItemsAt(text, f, depth, dialect)) else Some((items + [v], f))
    {
      if more && ItemsAt(text, f, depth, dialect).Some? {
        var rest := ItemsAt(text, f, depth, dialect).value.0;
        assert items + ([v] + rest) == items + [v] + rest;
      }
    }

    method ReadMembers(depth: nat) returns (result: Option<map<JsString, Json>>)
      requires offset <= |text|
      modifies this
      ensures Follows(MembersAt(text, old(offset), depth, dialect, map[]), result, offset)
      decreases |text| - offset, 2
    {
      var start := offset;
      ghost var expected := MembersAt(text, start, depth, dialect, map[]);
      var members: map<JsString, Json> := map[];
      while true
        invariant start <= offset <= |text|
        invariant expected == MembersAt(text, offset, depth, dialect, members)
        decreases |text| - offset
      {
        var pair := ReadPair(depth, members.Keys);
        if pair.None? { return None; }
        var more := ReadSeparator(CLOSE_BRACE);
        if more.None? { return None; }
        members := members[pair.value.0 := pair.value.1];
        if !more.value { return Some(members); }
      }
      assert false;
    }

    /** A key that the object does not have yet, the colon, and the value. */
    method ReadPair(depth: nat, read: set<JsString>) returns (result: Option<(JsString, Json)>)
      requires offset <= |text|
      modifies this
      ensures match PairAt(text, old(offset), depth, dialect, read)
              case None => result.None?
              case Some(r) => result == Some((r.0, r.1)) && offset == r.2
      decreases |text| - offset, 1
    {
      Whitespace();
      var key := ReadString();
      if key.None? { return None; }
      if key.value in read { return None; }
      Whitespace();
      var colon := UnitAt(text, offset);
      offset := offset + 1;
      if colon != COLON { return None; }
      var v := ReadValue(depth + 1);
      if v.None? { return None; }
      result := Some((key.value, v.value));
    }
  }

  /** parseAgentJson: the budget, the UTF-8 decoding, one value, and nothing behind it. */
  method ParseAgentJson(raw: seq<int>, maxBytes: nat, dialect: Dialect) returns (result: Option<(JsString, Json)>)
    ensures result == ParseBytes(raw, maxBytes, dialect)
  {
    if |raw| > maxBytes { return None; }
    var points := Decode(raw);
    if points.None? { return None; }
    var text := Units(points.value);
    var reader := new AgentJsonReader(text, dialect);
    var parsed := reader.ReadValue(1);
    if parsed.None? { return None; }
    reader.Whitespace();
    if reader.offset != |text| { return None; }
    result := Some((text, parsed.value));
  }
}
