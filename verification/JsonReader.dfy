/** A reader for canonical JSON.  The repository has no such reader; it exists here to show that the
    printer loses nothing but key order and the sign of zero. */
module JsonReader {
  import opened Text
  import opened Json
  import Ordering

  /** A value read from a prefix of a text, with the rest of the text. */
  datatype Read<+T> = Unreadable | Read(value: T, rest: JsString)

  function HexValue(u: CodeUnit): int {
    if 0x30 <= u <= 0x39 then u - 0x30 else if 0x61 <= u <= 0x66 then u - 0x61 + 10 else -1
  }

  /** One possibly escaped code unit of a string. */
  function ReadUnit(t: JsString): (r: Read<CodeUnit>)
    requires t != []
    ensures r.Read? ==> |r.rest| < |t|
  {
    if t[0] != BACKSLASH then Read(t[0], t[1..])
    else if |t| < 2 then Unreadable
    else if t[1] == 0x62 then Read(8, t[2..])
    else if t[1] == 0x74 then Read(9, t[2..])
    else if t[1] == 0x6E then Read(10, t[2..])
    else if t[1] == 0x66 then Read(12, t[2..])
    else if t[1] == 0x72 then Read(13, t[2..])
    else if t[1] == 0x75 then
      if |t| < 6 || HexValue(t[4]) < 0 || HexValue(t[5]) < 0 then Unreadable
      else Read(16 * HexValue(t[4]) + HexValue(t[5]), t[6..])
    else Read(t[1], t[2..])
  }

  /** The rest of a string whose opening quote has been read. */
  function ReadString(t: JsString): (r: Read<JsString>)
    ensures r.Read? ==> |r.rest| < |t|
    decreases |t|
  {
    if t == [] then Unreadable
    else if t[0] == QUOTE then Read([], t[1..])
    else
      match ReadUnit(t)
      case Unreadable => Unreadable
      case Read(u, afterUnit) =>
        match ReadString(afterUnit)
        case Unreadable => Unreadable
        case Read(s, rest) => Read([u] + s, rest)
  }

  function NumberSpan(t: JsString): (n: nat)
    ensures n <= |t|
  {
    if t == [] || !IsNumberUnit(t[0]) then 0 else 1 + NumberSpan(t[1..])
  }

  function ReadNumber(t: JsString): (r: Read<Json>)
    ensures r.Read? ==> |r.rest| < |t|
  {
    var token := t[..NumberSpan(t)];
    if token == [0x30] then Read(Num(Zero(false)), t[|token|..])
    else if IsNumberToken(token) then Read(Num(Finite(token)), t[|token|..])
    else Unreadable
  }

  function ReadLiteral(t: JsString, literal: JsString, v: Json): (r: Read<Json>)
    requires literal != []
    ensures r.Read? ==> |r.rest| < |t|
  {
    if literal <= t then Read(v, t[|literal|..]) else Unreadable
  }

  function ReadValue(t: JsString): (r: Read<Json>)
    ensures r.Read? ==> |r.rest| < |t|
    decreases |t|, 0
  {
    if t == [] then Unreadable
    else if t[0] == 0x6E then ReadLiteral(t, Ascii("null"), Null)
    else if t[0] == 0x74 then ReadLiteral(t, Ascii("true"), Bool(true))
    else if t[0] == 0x66 then ReadLiteral(t, Ascii("false"), Bool(false))
    else if t[0] == QUOTE then
      (match ReadString(t[1..]) case Unreadable => Unreadable case Read(s, rest) => Read(Str(s), rest))
    else if t[0] == OPEN_BRACKET then
      if |t| > 1 && t[1] == CLOSE_BRACKET then Read(Arr([]), t[2..])
      else (match ReadItems(t[1..]) case Unreadable => Unreadable case Read(items, rest) => Read(Arr(items), rest))
    else if t[0] == OPEN_BRACE then
      if |t| > 1 && t[1] == CLOSE_BRACE then Read(Obj([], []), t[2..])
      else (match ReadMembers(t[1..]) case Unreadable => Unreadable case Read(m, rest) => Read(Obj(m.0, m.1), rest))
    else ReadNumber(t)
  }

  /** One or more items up to the closing bracket. */
  function ReadItems(t: JsString): (r: Read<seq<Json>>)
    ensures r.Read? ==> |r.rest| < |t|
    decreases |t|, 1
  {
    match ReadValue(t)
    case Unreadable => Unreadable
    case Read(item, after) =>
      if after == [] then Unreadable
      else if after[0] == CLOSE_BRACKET then Read([item], after[1..])
      else if after[0] != COMMA then Unreadable
      else
        match ReadItems(after[1..])
        case Unreadable => Unreadable
        case Read(items, rest) => Read([item] + items, rest)
  }

  /** One or more members up to the closing brace. */
  function ReadMembers(t: JsString): (r: Read<(seq<JsString>, seq<Json>)>)
    ensures r.Read? ==> |r.rest| < |t|
    decreases |t|, 1
  {
    match ReadMember(t)
    case Unreadable => Unreadable
    case Read((key, value), after) =>
      if after == [] then Unreadable
      else if after[0] == CLOSE_BRACE then Read(([key], [value]), after[1..])
      else if after[0] != COMMA then Unreadable
      else
        match ReadMembers(after[1..])
        case Unreadable => Unreadable
        case Read((keys, values), rest) => Read(([key] + keys, [value] + values), rest)
  }

  function ReadMember(t: JsString): (r: Read<(JsString, Json)>)
    ensures r.Read? ==> |r.rest| < |t|
    decreases |t|, 0
  {
    if t == [] || t[0] != QUOTE then Unreadable
    else
      match ReadString(t[1..])
      case Unreadable => Unreadable
      case Read(key, afterKey) =>
        if afterKey == [] || afterKey[0] != COLON then Unreadable
        else
          match ReadValue(afterKey[1..])
          case Unreadable => Unreadable
          case Read(value, rest) => Read((key, value), rest)
  }

  // ---- Reading back what was printed ----

  lemma UnitRoundTrip(u: CodeUnit, rest: JsString)
    ensures EscapeUnit(u)[0] != QUOTE
    ensures ReadUnit(EscapeUnit(u) + rest) == Read(u, rest)
  {
    var t := EscapeUnit(u) + rest;
    if |EscapeUnit(u)| == 6 {
      assert HexValue(HexDigit(u / 16)) == u / 16 && HexValue(HexDigit(u % 16)) == u % 16;
      assert t[6..] == rest;
    } else if |EscapeUnit(u)| == 2 {
      assert t[2..] == rest;
    } else {
      assert t[1..] == rest;
    }
  }

  lemma {:induction false} StringRoundTrip(s: JsString, rest: JsString)
    ensures ReadString(Escape(s) + [QUOTE] + rest) == Read(s, rest)
  {
    hide ReadUnit, EscapeUnit;
    if s == [] {
      assert (Escape(s) + [QUOTE] + rest)[1..] == rest;
    } else {
      var tail := Escape(s[1..]) + [QUOTE] + rest;
      assert Escape(s) + [QUOTE] + rest == EscapeUnit(s[0]) + tail;
      UnitRoundTrip(s[0], tail);
      StringRoundTrip(s[1..], rest);
      assert [s[0]] + s[1..] == s;
    }
  }

  predicate EndsNumber(rest: JsString) {
    rest == [] || !IsNumberUnit(rest[0])
  }

  lemma {:induction false} SpanOfToken(token: JsString, rest: JsString)
    requires (forall u | u in token :: IsNumberUnit(u)) && EndsNumber(rest)
    ensures NumberSpan(token + rest) == |token|
  {
    if token == [] {
      assert token + rest == rest;
    } else {
      assert (token + rest)[1..] == token[1..] + rest;
      SpanOfToken(token[1..], rest);
    }
  }

  lemma NumberRoundTrip(token: JsString, rest: JsString)
    requires (token == [0x30] || IsNumberToken(token)) && EndsNumber(rest)
    ensures ReadNumber(token + rest) == Read(Num(if token == [0x30] then Zero(false) else Finite(token)), rest)
  {
    SpanOfToken(token, rest);
    assert (token + rest)[..|token|] == token && (token + rest)[|token|..] == rest;
  }

  /** No printed value starts like the end of a container. */
  lemma PrintStarts(v: Json)
    requires WellFormed(v)
    ensures Print(v) != [] && Print(v)[0] != CLOSE_BRACKET && Print(v)[0] != CLOSE_BRACE
  {
  }

  /** Every well-formed value is recovered, up to key order and the sign of zero, from its canonical
      text followed by anything that cannot continue a number. */
  lemma {:induction false} ValueRoundTrip(v: Json, rest: JsString)
    requires WellFormed(v) && EndsNumber(rest)
    ensures ReadValue(Print(v) + rest) == Read(Normal(v), rest)
    decreases v, 0
  {
    match v {
      case Arr(items) =>
        if items != [] {
          ItemsRoundTrip(items, rest);
          ArrRoundTrip(items, rest);
        } else {
          assert (Print(v) + rest)[2..] == rest;
        }
      case Obj(keys, values) =>
        if keys != [] {
          MembersRoundTrip(SortKeys(keys), keys, values, rest);
          ObjRoundTrip(keys, values, rest);
        } else {
          assert SortKeys(keys) == [];
          assert (Print(v) + rest)[2..] == rest;
        }
      case _ => LeafRoundTrip(v, rest);
    }
  }

  lemma LeafRoundTrip(v: Json, rest: JsString)
    requires WellFormed(v) && !v.Arr? && !v.Obj? && EndsNumber(rest)
    ensures ReadValue(Print(v) + rest) == Read(Normal(v), rest)
  {
    hide ReadNumber, ReadString, Escape, ReadItems, ReadMembers, ReadLiteral, Ascii, Quote;
    match v {
      case Null => LiteralRoundTrip(v, rest);
      case Bool(flag) => LiteralRoundTrip(v, rest);
      case Num(n) => NumberRoundTrip(Print(v), rest);
      case Str(s) => QuoteRoundTrip(s, rest);
    }
  }

  lemma QuoteRoundTrip(s: JsString, rest: JsString)
    ensures ReadValue(Quote(s) + rest) == Read(Str(s), rest)
  {
    hide ReadString, Escape;
    assert (Quote(s) + rest)[1..] == Escape(s) + [QUOTE] + rest;
    StringRoundTrip(s, rest);
  }

  lemma LiteralRoundTrip(v: Json, rest: JsString)
    requires v.Null? || v.Bool?
    ensures ReadValue(Print(v) + rest) == Read(v, rest)
  {
    hide ReadItems, ReadMembers, ReadString, ReadNumber;
    var literal := Print(v);
    assert literal <= literal + rest && (literal + rest)[|literal|..] == rest;
    assert (literal + rest)[0] == literal[0];
  }

  lemma ArrRoundTrip(items: seq<Json>, rest: JsString)
    requires WellFormed(Arr(items)) && items != []
    requires ReadItems(Join(PrintItems(items)) + [CLOSE_BRACKET] + rest) == Read(NormalItems(items), rest)
    ensures ReadValue(Print(Arr(items)) + rest) == Read(Normal(Arr(items)), rest)
  {
    hide ReadItems, NormalItems;
    var t := Print(Arr(items)) + rest;
    assert t[1..] == Join(PrintItems(items)) + [CLOSE_BRACKET] + rest;
    PrintStarts(items[0]);
    assert t[1] == Print(items[0])[0];
  }

  lemma ObjRoundTrip(keys: seq<JsString>, values: seq<Json>, rest: JsString)
    requires WellFormed(Obj(keys, values)) && keys != []
    requires ReadMembers(Join(PrintMembers(SortKeys(keys), keys, values)) + [CLOSE_BRACE] + rest)
          == Read((SortKeys(keys), NormalMembers(SortKeys(keys), keys, values)), rest)
    ensures ReadValue(Print(Obj(keys, values)) + rest) == Read(Normal(Obj(keys, values)), rest)
  {
    hide SortKeys, ReadMembers, NormalMembers;
    var parts := PrintMembers(SortKeys(keys), keys, values);
    var body := Join(parts) + [CLOSE_BRACE] + rest;
    JoinStarts(parts);
    assert body[0] == QUOTE;
    assert Print(Obj(keys, values)) + rest == [OPEN_BRACE] + body;
    assert ([OPEN_BRACE] + body)[1..] == body;
  }

  lemma JoinStarts(parts: seq<JsString>)
    requires parts != [] && parts[0] != []
    ensures Join(parts) != [] && Join(parts)[0] == parts[0][0]
  {
  }

  lemma {:induction false} ItemsRoundTrip(items: seq<Json>, rest: JsString)
    requires items != [] && forall item | item in items :: WellFormed(item)
    ensures ReadItems(Join(PrintItems(items)) + [CLOSE_BRACKET] + rest) == Read(NormalItems(items), rest)
    decreases items, 0
  {
    hide Print, Normal, ReadValue, WellFormed;
    var parts := PrintItems(items);
    var t := Join(parts) + [CLOSE_BRACKET] + rest;
    if |items| == 1 {
      assert t == Print(items[0]) + ([CLOSE_BRACKET] + rest);
      ValueRoundTrip(items[0], [CLOSE_BRACKET] + rest);
      assert ([CLOSE_BRACKET] + rest)[1..] == rest;
      assert NormalItems(items) == [Normal(items[0])];
    } else {
      var tail := Join(parts[1..]) + [CLOSE_BRACKET] + rest;
      assert t == Print(items[0]) + ([COMMA] + tail);
      ValueRoundTrip(items[0], [COMMA] + tail);
      assert ([COMMA] + tail)[1..] == tail;
      ItemsRoundTrip(items[1..], rest);
    }
  }

  lemma {:induction false} MembersRoundTrip(order: seq<JsString>, keys: seq<JsString>, values: seq<Json>, rest: JsString)
    requires order != [] && |keys| == |values| && forall key | key in order :: key in keys
    requires forall value | value in values :: WellFormed(value)
    ensures ReadMembers(Join(PrintMembers(order, keys, values)) + [CLOSE_BRACE] + rest)
         == Read((order, NormalMembers(order, keys, values)), rest)
    decreases values, |order|
  {
    hide Print, Normal, ReadValue, WellFormed, Quote, ReadMember;
    var parts := PrintMembers(order, keys, values);
    var value := values[IndexOf(keys, order[0])];
    var more := Join(parts[1..]) + [CLOSE_BRACE] + rest;
    var after := if |order| == 1 then [CLOSE_BRACE] + rest else [COMMA] + more;
    assert Join(parts) + [CLOSE_BRACE] + rest == parts[0] + after;
    ValueRoundTrip(value, after);
    MemberRoundTrip(order[0], value, after);
    if |order| == 1 {
      assert after[1..] == rest && order == [order[0]];
      assert NormalMembers(order, keys, values) == [Normal(value)];
    } else {
      assert after[1..] == more;
      MembersRoundTrip(order[1..], keys, values, rest);
      assert order == [order[0]] + order[1..];
    }
  }

  lemma MemberRoundTrip(key: JsString, value: Json, after: JsString)
    requires WellFormed(value) && ReadValue(Print(value) + after) == Read(Normal(value), after)
    ensures ReadMember(Quote(key) + [COLON] + Print(value) + after) == Read((key, Normal(value)), after)
  {
    hide Print, Normal, ReadValue, ReadString, WellFormed, Escape;
    var afterKey := [COLON] + (Print(value) + after);
    var inString := Escape(key) + [QUOTE] + afterKey;
    StringRoundTrip(key, afterKey);
    assert Quote(key) + [COLON] + Print(value) + after == [QUOTE] + inString;
    assert ([QUOTE] + inString)[1..] == inString;
    assert afterKey[1..] == Print(value) + after;
  }
}
