/** Domain-tagged hash preimages. */
module Domains {
  import opened Text
  import opened Json
  import JsonSameness
  import Utf8

  /** Every domain of the source is a printable ASCII name followed by one NUL. */
  function Tag(name: string): JsString {
    Ascii(name) + [0]
  }

  const DATASET := "databench.dataset.databench-v2-jcs-1"

  /** The bytes that `hashDomain` digests. */
  function Preimage(name: string, v: Json): seq<Byte>
    requires WellFormed(v)
  {
    Utf8.Encode(Tag(name) + Print(v))
  }

  // ---- Canonical text has no control characters and no lone surrogates ----

  ghost predicate Clean(t: JsString) {
    IsScalarSequence(t) && forall u | u in t :: u >= 0x20
  }

  lemma {:induction false} AsciiIsScalar(t: JsString)
    requires forall u | u in t :: u < 0x80
    ensures IsScalarSequence(t)
  {
    if t != [] {
      assert t[0] in t && forall u | u in t[1..] :: u in t;
      AsciiIsScalar(t[1..]);
    }
  }

  lemma CleanAppend(a: JsString, b: JsString)
    requires Clean(a) && Clean(b)
    ensures Clean(a + b)
  {
    Utf8.EncodeAppend(a, b);
  }

  lemma CleanAscii(t: JsString)
    requires forall u | u in t :: 0x20 <= u < 0x80
    ensures Clean(t)
  {
    AsciiIsScalar(t);
  }

  lemma {:induction false} EscapeIsClean(s: JsString)
    requires IsScalarSequence(s)
    ensures Clean(Escape(s))
    decreases |s|
  {
    hide Clean, EscapeUnit;
    if s == [] {
      CleanAscii([]);
    } else if IsHigh(s[0]) {
      EscapeIsClean(s[2..]);
      assert s[1..][1..] == s[2..];
      PairIsClean(s[0], s[1]);
      CleanAppend(EscapeUnit(s[0]) + EscapeUnit(s[1]), Escape(s[2..]));
      assert Escape(s) == EscapeUnit(s[0]) + EscapeUnit(s[1]) + Escape(s[2..]);
    } else {
      EscapeIsClean(s[1..]);
      UnitIsClean(s[0]);
      CleanAppend(EscapeUnit(s[0]), Escape(s[1..]));
    }
  }

  lemma PairIsClean(high: CodeUnit, low: CodeUnit)
    requires IsHigh(high) && IsLow(low)
    ensures Clean(EscapeUnit(high) + EscapeUnit(low))
  {
    assert EscapeUnit(high) + EscapeUnit(low) == [high, low] && [high, low][2..] == [];
  }

  lemma UnitIsClean(u: CodeUnit)
    requires IsScalarSequence([u])
    ensures Clean(EscapeUnit(u))
  {
    if u < 0x80 {
      CleanAscii(EscapeUnit(u));
    }
  }

  lemma QuoteIsClean(s: JsString)
    requires IsScalarSequence(s)
    ensures Clean(Quote(s))
  {
    EscapeIsClean(s);
    CleanAscii([QUOTE]);
    CleanAppend([QUOTE], Escape(s));
    CleanAppend([QUOTE] + Escape(s), [QUOTE]);
  }

  lemma {:induction false} JoinIsClean(parts: seq<JsString>)
    requires forall part | part in parts :: Clean(part)
    ensures Clean(Join(parts))
  {
    if |parts| == 1 {
      assert parts[0] in parts;
    } else if parts != [] {
      assert parts[0] in parts && forall part | part in parts[1..] :: part in parts;
      JoinIsClean(parts[1..]);
      CleanAscii([COMMA]);
      CleanAppend(parts[0], [COMMA]);
      CleanAppend(parts[0] + [COMMA], Join(parts[1..]));
    }
  }

  lemma WrapIsClean(open: CodeUnit, body: JsString, close: CodeUnit)
    requires Clean(body) && 0x20 <= open < 0x80 && 0x20 <= close < 0x80
    ensures Clean([open] + body + [close])
  {
    CleanAscii([open]);
    CleanAscii([close]);
    CleanAppend([open], body);
    CleanAppend([open] + body, [close]);
  }

  lemma {:induction false} PrintIsClean(v: Json)
    requires WellFormed(v)
    ensures Clean(Print(v))
    decreases v, 0
  {
    match v {
      case Null => CleanAscii(Ascii("null"));
      case Bool(flag) => CleanAscii(Ascii("true")); CleanAscii(Ascii("false"));
      case Num(n) => CleanAscii(Print(v));
      case Str(s) => QuoteIsClean(s);
      case Arr(items) =>
        ItemsAreClean(items);
        JoinIsClean(PrintItems(items));
        WrapIsClean(OPEN_BRACKET, Join(PrintItems(items)), CLOSE_BRACKET);
      case Obj(keys, values) =>
        var parts := PrintMembers(SortKeys(keys), keys, values);
        MembersAreClean(SortKeys(keys), keys, values);
        JoinIsClean(parts);
        WrapIsClean(OPEN_BRACE, Join(parts), CLOSE_BRACE);
    }
  }

  lemma {:induction false} ItemsAreClean(items: seq<Json>)
    requires forall item | item in items :: WellFormed(item)
    ensures forall part | part in PrintItems(items) :: Clean(part)
    decreases items, 0
  {
    if items != [] {
      PrintIsClean(items[0]);
      ItemsAreClean(items[1..]);
    }
  }

  lemma {:induction false} MembersAreClean(order: seq<JsString>, keys: seq<JsString>, values: seq<Json>)
    requires |keys| == |values| && forall key | key in order :: key in keys
    requires forall key | key in keys :: IsScalarSequence(key)
    requires forall value | value in values :: WellFormed(value)
    ensures forall part | part in PrintMembers(order, keys, values) :: Clean(part)
    decreases values, |order|
  {
    if order != [] {
      var value := values[IndexOf(keys, order[0])];
      PrintIsClean(value);
      QuoteIsClean(order[0]);
      CleanAscii([COLON]);
      CleanAppend(Quote(order[0]), [COLON]);
      CleanAppend(Quote(order[0]) + [COLON], Print(value));
      MembersAreClean(order[1..], keys, values);
    }
  }

  // ---- Domain separation ----

  function FirstNul(t: JsString): nat {
    if t == [] || t[0] == 0 then 0 else 1 + FirstNul(t[1..])
  }

  lemma {:induction false} NulEndsTheTag(name: JsString, rest: JsString)
    requires forall u | u in name :: u != 0
    ensures FirstNul(name + [0] + rest) == |name|
  {
    if name != [] {
      assert name[0] in name && forall u | u in name[1..] :: u in name;
      assert (name + [0] + rest)[1..] == name[1..] + [0] + rest;
      NulEndsTheTag(name[1..], rest);
    }
  }

  lemma NulMarksTheValue(na: JsString, a: JsString, nb: JsString, b: JsString)
    requires (forall u | u in na :: u != 0) && (forall u | u in nb :: u != 0)
    requires na + [0] + a == nb + [0] + b
    ensures na == nb && a == b
  {
    NulEndsTheTag(na, a);
    NulEndsTheTag(nb, b);
    var t := na + [0] + a;
    assert na == t[..|na|] && nb == t[..|nb|];
    assert a == t[|na| + 1..] && b == t[|nb| + 1..];
  }

  lemma TaggedTextIsScalar(name: string, v: Json)
    requires WellFormed(v)
    ensures IsScalarSequence(Tag(name)) && IsScalarSequence(Tag(name) + Print(v))
  {
    AsciiIsScalar(Tag(name));
    PrintIsClean(v);
    Utf8.EncodeAppend(Tag(name), Print(v));
  }

  /** Domain separation: the NUL that ends a tag is the only one in a preimage, so equal preimages
      force the same tag and the same JSON value; and nothing else makes them equal. */
  lemma PreimagesAreSeparated(na: string, a: Json, nb: string, b: Json)
    requires WellFormed(a) && WellFormed(b)
    ensures Preimage(na, a) == Preimage(nb, b) <==> Tag(na) == Tag(nb) && SameJson(a, b)
  {
    hide Print, SameJson, WellFormed;
    TaggedTextIsScalar(na, a);
    TaggedTextIsScalar(nb, b);
    if Preimage(na, a) == Preimage(nb, b) {
      Utf8.EncodeIsInjective(Tag(na) + Print(a), Tag(nb) + Print(b));
      NulMarksTheValue(Ascii(na), Print(a), Ascii(nb), Print(b));
    }
    JsonSameness.SameJsonIsSameText(a, b);
    assert CanonicalJsonV2(a) == Some(Print(a)) && CanonicalJsonV2(b) == Some(Print(b));
  }
}
