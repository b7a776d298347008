/** The canonical text unit by unit, in the numbers of RFC 8785 (sections 3.2.2 and 3.2.3) and RFC 3629. */
module JsonText {
  import opened Text
  import opened Json
  import opened Domains
  import Ordering
  import JsonSameness
  import Utf8

  // ---- Well-formed UTF-16 ----

  /** Every high surrogate is followed by a low one, and every low one preceded by a high one. */
  ghost predicate SurrogatesPair(s: JsString) {
    HighsPair(s) && LowsPair(s)
  }

  ghost predicate HighsPair(s: JsString) {
    forall i | 0 <= i < |s| && 0xD800 <= s[i] < 0xDC00 :: i + 1 < |s| && 0xDC00 <= s[i + 1] < 0xE000
  }

  ghost predicate LowsPair(s: JsString) {
    forall i | 0 <= i < |s| && 0xDC00 <= s[i] < 0xE000 :: i > 0 && 0xD800 <= s[i - 1] < 0xDC00
  }

  lemma {:induction false} ScalarSequencesPair(s: JsString)
    ensures IsScalarSequence(s) <==> SurrogatesPair(s)
    decreases |s|
  {
    if s != [] {
      if IsHigh(s[0]) {
        if |s| >= 2 && IsLow(s[1]) {
          ScalarSequencesPair(s[2..]);
          TailPairs(s, 2);
        }
      } else if !IsLow(s[0]) {
        ScalarSequencesPair(s[1..]);
        TailPairs(s, 1);
      }
    }
  }

  predicate CodePointAhead(s: JsString, n: nat) {
    (n == 1 && |s| >= 1 && !IsHigh(s[0]) && !IsLow(s[0])) || (n == 2 && |s| >= 2 && IsHigh(s[0]) && IsLow(s[1]))
  }

  /** Cutting off a whole code point. */
  lemma TailPairs(s: JsString, n: nat)
    requires CodePointAhead(s, n)
    ensures SurrogatesPair(s[n..]) <==> SurrogatesPair(s)
  {
    TailHighs(s, n);
    TailLows(s, n);
    hide HighsPair, LowsPair;
  }

  lemma TailHighs(s: JsString, n: nat)
    requires CodePointAhead(s, n)
    ensures HighsPair(s[n..]) <==> HighsPair(s)
  {
    var t := s[n..];
    if HighsPair(t) {
      forall i | 0 <= i < |s| && 0xD800 <= s[i] < 0xDC00 ensures i + 1 < |s| && 0xDC00 <= s[i + 1] < 0xE000 {
        if i >= n {
          assert t[i - n] == s[i];
          assert t[i - n + 1] == s[i + 1];
        }
      }
    }
    if HighsPair(s) {
      forall i | 0 <= i < |t| && 0xD800 <= t[i] < 0xDC00 ensures i + 1 < |t| && 0xDC00 <= t[i + 1] < 0xE000 {
        assert s[i + n] == t[i];
      }
    }
  }

  lemma TailLows(s: JsString, n: nat)
    requires CodePointAhead(s, n)
    ensures LowsPair(s[n..]) <==> LowsPair(s)
  {
    var t := s[n..];
    if LowsPair(t) {
      forall i | 0 <= i < |s| && 0xDC00 <= s[i] < 0xE000 ensures i > 0 && 0xD800 <= s[i - 1] < 0xDC00 {
        if i >= n {
          assert t[i - n] == s[i];
          assert t[i - n - 1] == s[i - 1];
        }
      }
    }
    if LowsPair(s) {
      forall i | 0 <= i < |t| && 0xDC00 <= t[i] < 0xE000 ensures i > 0 && 0xD800 <= t[i - 1] < 0xDC00 {
        assert s[i + n] == t[i];
      }
    }
  }

  // ---- Strings ----

  /** Two-character escapes where JSON has them, lower-case \u escapes for the other control characters, and
      everything else as it is. */
  lemma EscapesAre(u: CodeUnit)
    ensures u == 0x22 ==> EscapeUnit(u) == [0x5C, 0x22]
    ensures u == 0x5C ==> EscapeUnit(u) == [0x5C, 0x5C]
    ensures u == 0x08 ==> EscapeUnit(u) == [0x5C, 0x62]
    ensures u == 0x09 ==> EscapeUnit(u) == [0x5C, 0x74]
    ensures u == 0x0A ==> EscapeUnit(u) == [0x5C, 0x6E]
    ensures u == 0x0C ==> EscapeUnit(u) == [0x5C, 0x66]
    ensures u == 0x0D ==> EscapeUnit(u) == [0x5C, 0x72]
    ensures u < 0x20 && u !in {0x08, 0x09, 0x0A, 0x0C, 0x0D} ==>
      && EscapeUnit(u)[..4] == [0x5C, 0x75, 0x30, 0x30] && |EscapeUnit(u)| == 6
      && EscapeUnit(u)[4] == (if u < 0x10 then 0x30 else 0x31)
      && EscapeUnit(u)[5] == (if u % 16 < 10 then 0x30 + u % 16 else 0x57 + u % 16)
    ensures u >= 0x20 && u != 0x22 && u != 0x5C ==> EscapeUnit(u) == [u]
  {
  }

  lemma {:induction false} EscapeAppend(a: JsString, b: JsString)
    ensures Escape(a + b) == Escape(a) + Escape(b)
  {
    if a == [] {
      assert a + b == b;
    } else {
      assert (a + b)[1..] == a[1..] + b;
      EscapeAppend(a[1..], b);
    }
  }

  /** A quoted string is its units' escapes between quotation marks. */
  lemma QuotedText(s: JsString, u: CodeUnit)
    ensures Quote([]) == [0x22, 0x22]
    ensures Quote(s + [u]) == [0x22] + (Escape(s) + EscapeUnit(u)) + [0x22]
  {
    EscapeAppend(s, [u]);
    assert Escape([u]) == EscapeUnit(u) + [] == EscapeUnit(u);
    hide Escape, EscapeUnit;
    assert Escape([]) == [];
  }

  // ---- Values ----

  lemma LeafText(token: NumberToken)
    ensures Print(Null) == [0x6E, 0x75, 0x6C, 0x6C]
    ensures Print(Bool(true)) == [0x74, 0x72, 0x75, 0x65]
    ensures Print(Bool(false)) == [0x66, 0x61, 0x6C, 0x73, 0x65]
    ensures Print(Num(Zero(false))) == [0x30] && Print(Num(Zero(true))) == [0x30]
    ensures Print(Num(Finite(token))) == token
  {
  }

  /** Parts are joined by commas and nothing else. */
  lemma {:induction false} JoinedText(parts: seq<JsString>, part: JsString)
    ensures Join([]) == [] && Join([part]) == part
    ensures parts != [] ==> Join(parts + [part]) == Join(parts) + [0x2C] + part
  {
    if |parts| == 1 {
      assert (parts + [part])[1..] == [part];
    } else if parts != [] {
      assert (parts + [part])[1..] == parts[1..] + [part];
      JoinedText(parts[1..], part);
    }
  }

  /** An array prints its items in order between brackets. */
  lemma {:induction false} ArrayText(items: seq<Json>)
    requires WellFormed(Arr(items))
    ensures Print(Arr(items)) == [0x5B] + Join(PrintItems(items)) + [0x5D]
    ensures |PrintItems(items)| == |items|
    ensures forall i | 0 <= i < |items| :: WellFormed(items[i]) && PrintItems(items)[i] == Print(items[i])
  {
    if items != [] {
      assert WellFormed(items[0]);
      ArrayText(items[1..]);
    }
  }

  /** Sorting distinct keys puts them in ascending order of code units. */
  lemma KeysAscend(keys: seq<JsString>)
    requires Distinct(keys)
    ensures forall i, j | 0 <= i < j < |SortKeys(keys)| :: Ordering.Precedes(SortKeys(keys)[i], SortKeys(keys)[j])
  {
    hide Ordering.Precedes, SortKeys;
    var sorted := SortKeys(keys);
    SortedKeysAreOrdered(keys);
    forall i, j | 0 <= i < j < |sorted| ensures Ordering.Precedes(sorted[i], sorted[j]) {
      if sorted[i] == sorted[j] {
        TwiceIn(sorted, i, j);
        JsonSameness.CountOfDistinct(keys, sorted[i]);
        assert false;
      }
      Ordering.CompareIsLexicographic(sorted[i], sorted[j]);
    }
  }

  lemma SortedKeysAreOrdered(keys: seq<JsString>)
    ensures forall i, j | 0 <= i < j < |SortKeys(keys)| :: Ordering.Compare(SortKeys(keys)[i], SortKeys(keys)[j]) <= 0
  {
    JsonSameness.KeysAreTotallyOrdered();
    Ordering.SortOrders(keys, ByUtf16());
    var sorted := SortKeys(keys);
    forall i, j | 0 <= i < j < |sorted| ensures Ordering.Compare(sorted[i], sorted[j]) <= 0 {
      assert ByUtf16()(sorted[i], sorted[j]);
    }
  }

  lemma TwiceIn<T>(s: seq<T>, i: nat, j: nat)
    requires i < j < |s| && s[i] == s[j]
    ensures multiset(s)[s[i]] >= 2
  {
    assert s == s[..j] + s[j..];
    assert multiset(s) == multiset(s[..j]) + multiset(s[j..]);
    assert s[..j][i] == s[i] && s[j..][0] == s[i];
  }

  /** An object prints between braces one member for each key, in ascending order of code units; a member is
      the quoted key, a colon and the key's own value. */
  lemma ObjectText(keys: seq<JsString>, values: seq<Json>)
    requires WellFormed(Obj(keys, values))
    ensures var order := SortKeys(keys);
            && multiset(order) == multiset(keys)
            && (forall i, j | 0 <= i < j < |order| :: Ordering.Precedes(order[i], order[j]))
            && Print(Obj(keys, values)) == [0x7B] + Join(PrintMembers(order, keys, values)) + [0x7D]
            && |PrintMembers(order, keys, values)| == |order|
            && forall i, j | 0 <= i < |order| && 0 <= j < |keys| && keys[j] == order[i] ::
                 PrintMembers(order, keys, values)[i] == Quote(keys[j]) + [0x3A] + Print(values[j])
  {
    hide Ordering.Precedes, SortKeys, Quote, Print;
    KeysAscend(keys);
    PrintedObject(keys, values);
    var order := SortKeys(keys);
    forall i, j | 0 <= i < |order| && 0 <= j < |keys| && keys[j] == order[i]
      ensures PrintMembers(order, keys, values)[i] == Quote(keys[j]) + [0x3A] + Print(values[j])
    {
      MemberAt(order, keys, values, i);
      assert IndexOf(keys, order[i]) == j;
    }
  }

  lemma PrintedObject(keys: seq<JsString>, values: seq<Json>)
    requires WellFormed(Obj(keys, values))
    ensures Print(Obj(keys, values)) == [0x7B] + Join(PrintMembers(SortKeys(keys), keys, values)) + [0x7D]
  {
    hide SortKeys, Join, PrintMembers;
  }

  lemma {:induction false} MemberAt(order: seq<JsString>, keys: seq<JsString>, values: seq<Json>, i: nat)
    requires |keys| == |values| && forall key | key in order :: key in keys
    requires forall value | value in values :: WellFormed(value)
    requires i < |order|
    ensures PrintMembers(order, keys, values)[i] == Quote(order[i]) + [0x3A] + Print(values[IndexOf(keys, order[i])])
  {
    hide Quote, Print;
    if i > 0 {
      MemberAt(order[1..], keys, values, i - 1);
    }
  }

  // ---- Bytes ----

  /** The code point of a surrogate pair, and of any other unit. */
  lemma CodePointsAre(s: JsString)
    requires IsScalarSequence(s) && s != []
    ensures 0xD800 <= s[0] < 0xDC00 ==>
      Utf8.FirstScalar(s) == 0x10000 + (s[0] as int - 0xD800) * 1024 + (s[1] as int - 0xDC00) && Utf8.AfterFirst(s) == s[2..]
    ensures !(0xD800 <= s[0] < 0xDC00) ==> Utf8.FirstScalar(s) == s[0] && Utf8.AfterFirst(s) == s[1..]
  {
  }

  predicate IsContinuation(b: int) { 0x80 <= b < 0xC0 }

  /** The shortest form of a code point: one to four bytes, six bits in each continuation. */
  lemma OneByte(cp: int)
    requires 0 <= cp < 0x80
    ensures Utf8.EncodeScalar(cp) == [cp]
  {
  }

  lemma TwoBytes(cp: int)
    requires 0x80 <= cp < 0x800
    ensures var b := Utf8.EncodeScalar(cp);
            && |b| == 2 && 0xC0 <= b[0] < 0xE0 && IsContinuation(b[1])
            && cp == (b[0] as int - 0xC0) * 64 + (b[1] as int - 0x80)
  {
  }

  lemma ThreeBytes(cp: int)
    requires 0x800 <= cp < 0x10000 && Utf8.IsScalar(cp)
    ensures var b := Utf8.EncodeScalar(cp);
            && |b| == 3 && 0xE0 <= b[0] < 0xF0 && IsContinuation(b[1]) && IsContinuation(b[2])
            && cp == (b[0] as int - 0xE0) * 4096 + (b[1] as int - 0x80) * 64 + (b[2] as int - 0x80)
  {
    assert cp / 64 / 64 == cp / 4096;
  }

  lemma FourBytes(cp: int)
    requires 0x10000 <= cp && Utf8.IsScalar(cp)
    ensures var b := Utf8.EncodeScalar(cp);
            && |b| == 4 && 0xF0 <= b[0] < 0xF8 && IsContinuation(b[1]) && IsContinuation(b[2]) && IsContinuation(b[3])
            && cp == (b[0] as int - 0xF0) * 262144 + (b[1] as int - 0x80) * 4096 + (b[2] as int - 0x80) * 64 + (b[3] as int - 0x80)
  {
    assert cp / 64 / 64 == cp / 4096;
    assert cp / 4096 / 64 == cp / 262144;
  }

  lemma {:induction false} AsciiBytes(t: JsString)
    requires forall u | u in t :: u < 0x80
    ensures IsScalarSequence(t) && Utf8.Encode(t) == t
  {
    AsciiIsScalar(t);
    if t != [] {
      assert t[0] in t && forall u | u in t[1..] :: u in t;
      AsciiBytes(t[1..]);
      CodePointsAre(t);
      OneByte(t[0]);
      assert t == [t[0]] + t[1..];
    }
  }

  /** What is hashed: the bytes of the domain's name, a zero byte, and the bytes of the canonical text. */
  lemma PreimageBytes(name: string, v: Json)
    requires WellFormed(v)
    ensures Preimage(name, v) == Ascii(name) + [0] + Utf8.Encode(Print(v))
  {
    hide Print, WellFormed;
    AsciiBytes(Tag(name));
    TaggedTextIsScalar(name, v);
    Utf8.EncodeAppend(Tag(name), Print(v));
  }
}
