/** The identity of a dataset: the batch form that prints an envelope, and the streaming form that
    feeds a hasher piece by piece. */
module DatasetIdentity {
  import opened Text
  import opened Json
  import opened Domains
  import opened IncrementalDigests
  import JsonSameness
  import Ordering
  import Utf8

  const V2_IDENTITY_PROFILE := "databench-v2-jcs-1"
  const V2_RECORD_SCHEMA_VERSION := "2.0.0"

  predicate IsHexUnit(u: int) {
    0x30 <= u <= 0x39 || 0x61 <= u <= 0x66
  }

  predicate IsHexDigest(d: JsString) {
    |d| == 64 && forall i | 0 <= i < |d| :: IsHexUnit(d[i])
  }

  ghost predicate SortedDigests(digests: seq<JsString>) {
    Ordering.SortedBy(digests, ByUtf16())
  }

  const IDENTITY_PROFILE: JsString := Ascii("identity_profile")
  const RECORD_DIGESTS: JsString := Ascii("record_digests")
  const RECORD_SCHEMA_VERSION: JsString := Ascii("record_schema_version")

  /** The envelope that `hashV2DatasetIdentity` prints, in the property order of the source. */
  function DatasetEnvelope(digests: seq<JsString>): Json {
    Obj([IDENTITY_PROFILE, RECORD_SCHEMA_VERSION, RECORD_DIGESTS],
        [Str(Ascii(V2_IDENTITY_PROFILE)), Str(Ascii(V2_RECORD_SCHEMA_VERSION)), Arr(Strings(SortKeys(digests)))])
  }

  function Strings(digests: seq<JsString>): (r: seq<Json>)
    ensures |r| == |digests| && forall i | 0 <= i < |digests| :: r[i] == Str(digests[i])
  {
    seq(|digests|, i requires 0 <= i < |digests| => Str(digests[i]))
  }

  // ---- Streaming refines batch ----

  function QuoteAll(digests: seq<JsString>): (r: seq<JsString>)
    ensures |r| == |digests|
  {
    if digests == [] then [] else [Quote(digests[0])] + QuoteAll(digests[1..])
  }

  function Head(): JsString {
    [OPEN_BRACE] + Quote(IDENTITY_PROFILE) + [COLON] + Quote(Ascii(V2_IDENTITY_PROFILE)) + [COMMA] +
    Quote(RECORD_DIGESTS) + [COLON] + [OPEN_BRACKET]
  }

  function Foot(): JsString {
    [CLOSE_BRACKET] + [COMMA] +
    Quote(RECORD_SCHEMA_VERSION) + [COLON] + Quote(Ascii(V2_RECORD_SCHEMA_VERSION)) + [CLOSE_BRACE]
  }

  lemma EnvelopeKeysInOrder()
    ensures Ordering.Compare(IDENTITY_PROFILE, RECORD_DIGESTS) < 0
    ensures Ordering.Compare(RECORD_DIGESTS, RECORD_SCHEMA_VERSION) < 0
  {
    Ordering.DifferenceDecides(IDENTITY_PROFILE, RECORD_DIGESTS, 0);
    Ordering.DifferenceDecides(RECORD_DIGESTS, RECORD_SCHEMA_VERSION, 7);
  }

  lemma EnvelopeKeysSort()
    ensures SortKeys([IDENTITY_PROFILE, RECORD_SCHEMA_VERSION, RECORD_DIGESTS])
         == [IDENTITY_PROFILE, RECORD_DIGESTS, RECORD_SCHEMA_VERSION]
  {
    var keys := [IDENTITY_PROFILE, RECORD_SCHEMA_VERSION, RECORD_DIGESTS];
    var sorted := [IDENTITY_PROFILE, RECORD_DIGESTS, RECORD_SCHEMA_VERSION];
    EnvelopeKeysInOrder();
    Ordering.CompareIsTotalOrder(IDENTITY_PROFILE, RECORD_DIGESTS, RECORD_SCHEMA_VERSION);
    SortIs(keys, sorted);
  }

  /** Whatever is sorted and has the same elements is the sort. */
  lemma SortIs(keys: seq<JsString>, sorted: seq<JsString>)
    requires multiset(keys) == multiset(sorted) && Ordering.SortedBy(sorted, ByUtf16())
    ensures SortKeys(keys) == sorted
  {
    JsonSameness.KeysAreTotallyOrdered();
    Ordering.SortOrders(keys, ByUtf16());
    Ordering.SortedIsUnique(sorted, SortKeys(keys), ByUtf16());
  }

  lemma {:induction false} HexNeedsNoEscape(s: JsString)
    requires forall i | 0 <= i < |s| :: IsHexUnit(s[i])
    ensures Escape(s) == s
  {
    if s != [] {
      HexNeedsNoEscape(s[1..]);
      assert EscapeUnit(s[0]) == [s[0]];
      assert s == [s[0]] + s[1..];
    }
  }

  lemma EnvelopeKeysAreDistinct()
    ensures Distinct([IDENTITY_PROFILE, RECORD_SCHEMA_VERSION, RECORD_DIGESTS])
  {
    EnvelopeKeysInOrder();
    Ordering.CompareIsTotalOrder(IDENTITY_PROFILE, RECORD_DIGESTS, RECORD_SCHEMA_VERSION);
    Ordering.CompareIsTotalOrder(RECORD_DIGESTS, RECORD_SCHEMA_VERSION, IDENTITY_PROFILE);
    Ordering.CompareIsTotalOrder(RECORD_SCHEMA_VERSION, IDENTITY_PROFILE, RECORD_DIGESTS);
  }

  lemma LiteralsAreScalar()
    ensures IsScalarSequence(IDENTITY_PROFILE) && IsScalarSequence(RECORD_DIGESTS)
    ensures IsScalarSequence(RECORD_SCHEMA_VERSION)
    ensures IsScalarSequence(Ascii(V2_IDENTITY_PROFILE)) && IsScalarSequence(Ascii(V2_RECORD_SCHEMA_VERSION))
  {
    AsciiIsScalar(IDENTITY_PROFILE);
    AsciiIsScalar(RECORD_DIGESTS);
    AsciiIsScalar(RECORD_SCHEMA_VERSION);
    AsciiIsScalar(Ascii(V2_IDENTITY_PROFILE));
    AsciiIsScalar(Ascii(V2_RECORD_SCHEMA_VERSION));
  }

  ghost predicate AllScalar(digests: seq<JsString>) {
    forall d | d in digests :: IsScalarSequence(d)
  }

  lemma DigestListIsWellFormed(digests: seq<JsString>)
    ensures WellFormed(Arr(Strings(digests))) <==> AllScalar(digests)
  {
    var items := Strings(digests);
    if AllScalar(digests) {
      forall item | item in items ensures WellFormed(item) {
        assert item.Str? && item.s in digests;
      }
    }
    if WellFormed(Arr(items)) {
      forall d | d in digests ensures IsScalarSequence(d) {
        var i :| 0 <= i < |digests| && digests[i] == d;
        assert items[i] in items && WellFormed(items[i]);
      }
    }
  }

  /** The encoder accepts the envelope exactly when it accepts every digest string. */
  lemma EnvelopeIsWellFormed(digests: seq<JsString>)
    ensures WellFormed(DatasetEnvelope(digests)) <==> AllScalar(digests)
  {
    hide SortKeys, Strings, Ascii, IsScalarSequence, Distinct, WellFormed, AllScalar;
    EnvelopeKeysAreDistinct();
    LiteralsAreScalar();
    DigestListIsWellFormed(SortKeys(digests));
    SortedAreScalar(digests);
    var values := DatasetEnvelope(digests).values;
    StringIsWellFormed(Ascii(V2_IDENTITY_PROFILE));
    StringIsWellFormed(Ascii(V2_RECORD_SCHEMA_VERSION));
    ObjectOfThree([IDENTITY_PROFILE, RECORD_SCHEMA_VERSION, RECORD_DIGESTS], values);
  }

  lemma SortedAreScalar(digests: seq<JsString>)
    ensures AllScalar(SortKeys(digests)) <==> AllScalar(digests)
  {
    hide SortKeys, IsScalarSequence;
    assert forall d :: d in SortKeys(digests) <==> d in digests;
  }

  lemma StringIsWellFormed(s: JsString)
    ensures WellFormed(Str(s)) <==> IsScalarSequence(s)
  {
  }

  lemma HexIsScalar(digests: seq<JsString>)
    requires forall d | d in digests :: IsHexDigest(d)
    ensures AllScalar(digests)
  {
    forall d | d in digests ensures IsScalarSequence(d) {
      AsciiIsScalar(d);
    }
  }

  lemma ObjectOfThree(keys: seq<JsString>, values: seq<Json>)
    requires |keys| == |values| == 3 && Distinct(keys)
    requires IsScalarSequence(keys[0]) && IsScalarSequence(keys[1]) && IsScalarSequence(keys[2])
    requires WellFormed(values[0]) && WellFormed(values[1])
    ensures WellFormed(Obj(keys, values)) <==> WellFormed(values[2])
  {
    assert values[2] in values;
  }

  lemma {:induction false} PrintStrings(digests: seq<JsString>)
    requires forall item | item in Strings(digests) :: WellFormed(item)
    ensures PrintItems(Strings(digests)) == QuoteAll(digests)
  {
    if digests != [] {
      assert Strings(digests)[1..] == Strings(digests[1..]);
      PrintStrings(digests[1..]);
    }
  }

  /** The text of the envelope, with its members in canonical order. */
  lemma EnvelopeText(digests: seq<JsString>)
    requires AllScalar(digests)
    ensures WellFormed(DatasetEnvelope(digests))
    ensures Print(DatasetEnvelope(digests)) == Head() + Join(QuoteAll(SortKeys(digests))) + Foot()
  {
    hide SortKeys, Quote, Join, QuoteAll, Strings, AllScalar;
    EnvelopeIsWellFormed(digests);
    EnvelopeKeysSort();
    var envelope := DatasetEnvelope(digests);
    var items := Strings(SortKeys(digests));
    assert Arr(items) in envelope.values;
    PrintStrings(SortKeys(digests));
    EnvelopeMembers(envelope.keys, envelope.values);
    var list := Join(QuoteAll(SortKeys(digests)));
    assert Print(Arr(items)) == [OPEN_BRACKET] + list + [CLOSE_BRACKET];
    ThreeMembersJoin(list);
  }

  lemma EnvelopeMembers(keys: seq<JsString>, values: seq<Json>)
    requires keys == [IDENTITY_PROFILE, RECORD_SCHEMA_VERSION, RECORD_DIGESTS] && |values| == 3
    requires Distinct(keys) && forall value | value in values :: WellFormed(value)
    ensures PrintMembers([IDENTITY_PROFILE, RECORD_DIGESTS, RECORD_SCHEMA_VERSION], keys, values) ==
      [Quote(IDENTITY_PROFILE) + [COLON] + Print(values[0]),
       Quote(RECORD_DIGESTS) + [COLON] + Print(values[2]),
       Quote(RECORD_SCHEMA_VERSION) + [COLON] + Print(values[1])]
  {
    PrintThreeMembers(keys[0], keys[2], keys[1], keys, values);
  }

  lemma PrintThreeMembers(a: JsString, b: JsString, c: JsString, keys: seq<JsString>, values: seq<Json>)
    requires keys == [a, c, b] && Distinct(keys) && |values| == 3
    requires forall value | value in values :: WellFormed(value)
    ensures PrintMembers([a, b, c], keys, values) ==
      [Quote(a) + [COLON] + Print(values[0]), Quote(b) + [COLON] + Print(values[2]), Quote(c) + [COLON] + Print(values[1])]
  {
    hide Print, Quote, WellFormed;
    assert keys[0] != keys[1] && keys[0] != keys[2] && keys[1] != keys[2];
    assert IndexOf(keys, a) == 0 && IndexOf(keys, b) == 2 && IndexOf(keys, c) == 1;
    assert [a, b, c][1..] == [b, c] && [b, c][1..] == [c] && [c][1..] == [];
    assert PrintMembers([], keys, values) == [];
    assert PrintMembers([c], keys, values) == [Quote(c) + [COLON] + Print(values[1])];
    assert PrintMembers([b, c], keys, values) ==
           [Quote(b) + [COLON] + Print(values[2]), Quote(c) + [COLON] + Print(values[1])];
  }

  lemma JoinThree(a: JsString, b: JsString, c: JsString)
    ensures Join([a, b, c]) == a + [COMMA] + (b + [COMMA] + c)
  {
    assert [a, b, c][1..] == [b, c] && [b, c][1..] == [c];
    assert Join([b, c]) == b + [COMMA] + c;
  }

  lemma ThreeMembersJoin(list: JsString)
    ensures [OPEN_BRACE] +
            Join([Quote(IDENTITY_PROFILE) + [COLON] + Quote(Ascii(V2_IDENTITY_PROFILE)),
                  Quote(RECORD_DIGESTS) + [COLON] + ([OPEN_BRACKET] + list + [CLOSE_BRACKET]),
                  Quote(RECORD_SCHEMA_VERSION) + [COLON] + Quote(Ascii(V2_RECORD_SCHEMA_VERSION))]) +
            [CLOSE_BRACE]
         == Head() + list + Foot()
  {
    hide Quote, Join;
    JoinThree(Quote(IDENTITY_PROFILE) + [COLON] + Quote(Ascii(V2_IDENTITY_PROFILE)),
              Quote(RECORD_DIGESTS) + [COLON] + ([OPEN_BRACKET] + list + [CLOSE_BRACKET]),
              Quote(RECORD_SCHEMA_VERSION) + [COLON] + Quote(Ascii(V2_RECORD_SCHEMA_VERSION)));
  }

  lemma JoinOneMore(digests: seq<JsString>, d: JsString)
    ensures Join(QuoteAll(digests + [d])) ==
            Join(QuoteAll(digests)) + (if digests == [] then [] else [COMMA]) + Quote(d)
  {
    hide Quote, QuoteAll, Join;
    QuoteOneMore(digests, d);
    AppendPart(QuoteAll(digests), Quote(d));
  }

  lemma {:induction false} QuoteOneMore(digests: seq<JsString>, d: JsString)
    ensures QuoteAll(digests + [d]) == QuoteAll(digests) + [Quote(d)]
  {
    hide Quote;
    if digests == [] {
      assert [] + [d] == [d] && [d][1..] == [];
    } else {
      assert (digests + [d])[1..] == digests[1..] + [d];
      QuoteOneMore(digests[1..], d);
    }
  }

  lemma {:induction false} AppendPart(parts: seq<JsString>, part: JsString)
    ensures Join(parts + [part]) == Join(parts) + (if parts == [] then [] else [COMMA]) + part
  {
    hide Join;
    JoinFront(parts + [part]);
    if parts == [] {
      assert parts + [part] == [part] && [part][1..] == [];
      JoinNothing();
    } else {
      assert (parts + [part])[1..] == parts[1..] + [part];
      AppendPart(parts[1..], part);
      JoinFront(parts);
      if |parts| == 1 {
        assert parts[1..] == [];
        JoinNothing();
      }
    }
  }

  lemma JoinNothing()
    ensures Join([]) == []
  {
  }

  lemma JoinFront(parts: seq<JsString>)
    requires parts != []
    ensures Join(parts) == parts[0] + (if |parts| == 1 then [] else [COMMA]) + Join(parts[1..])
  {
  }

  /** `hashV2DatasetIdentity`: the digest of the whole envelope.  The digests need not be hex; only a string
      with an unpaired surrogate makes the encoder throw. */
  method HashV2DatasetIdentity(backend: Backend, digests: seq<JsString>) returns (hex: Option<string>)
    modifies backend
    ensures hex.Some? <==> forall d | d in digests :: IsScalarSequence(d)
    ensures hex.Some? <==> WellFormed(DatasetEnvelope(digests))
    ensures hex.Some? ==> hex.value == backend.blake3(Preimage(DATASET, DatasetEnvelope(digests)))
  {
    hide WellFormed, DatasetEnvelope, Preimage, IsScalarSequence;
    EnvelopeIsWellFormed(digests);
    for i := 0 to |digests|
      invariant AllScalar(digests[..i])
    {
      var ok := AssertUnicodeScalarSequence(digests[i]);
      if !ok {
        return None;
      }
      assert digests[..i + 1] == digests[..i] + [digests[i]];
    }
    assert digests[..|digests|] == digests;
    var preimage := Preimage(DATASET, DatasetEnvelope(digests));
    backend.Load([]);
    backend.Absorb(preimage);
    var digest := backend.DigestHex();
    assert [] + preimage == preimage;
    hex := Some(digest);
  }

  /** Feeding a piece after well-formed text continues the encoding of the whole text. */
  method Feed(hasher: IncrementalDigest, ghost fed: JsString, piece: JsString)
    requires !hasher.finalized && hasher.state == Utf8.Encode(fed) && IsScalarSequence(fed)
    requires IsScalarSequence(piece)
    modifies hasher, hasher.backend
    ensures !hasher.finalized && hasher.state == Utf8.Encode(fed + piece) && IsScalarSequence(fed + piece)
  {
    Utf8.EncodeAppend(fed, piece);
    var ok := hasher.Update(Utf8.Encode(piece));
  }

  /** One iteration of the streaming loop: a comma unless first, then the quoted digest. */
  method FeedDigest(hasher: IncrementalDigest, ghost fed: JsString, digest: JsString, first: bool)
    requires !hasher.finalized && hasher.state == Utf8.Encode(fed) && IsScalarSequence(fed)
    requires IsHexDigest(digest)
    modifies hasher, hasher.backend
    ensures var text := fed + (if first then [] else [COMMA]) + Quote(digest);
            !hasher.finalized && hasher.state == Utf8.Encode(text) && IsScalarSequence(text)
  {
    hide IsHexDigest, Quote;
    QuotedDigest(digest);
    JustCommaIsScalar();
    var piece := [QUOTE] + digest + [QUOTE];
    if first {
      assert fed + [] == fed;
      Feed(hasher, fed, piece);
    } else {
      Feed(hasher, fed, [COMMA]);
      Feed(hasher, fed + [COMMA], piece);
    }
  }

  lemma JustCommaIsScalar()
    ensures IsScalarSequence([COMMA])
  {
    AsciiIsScalar([COMMA]);
  }

  lemma OneMoreDigest(digests: seq<JsString>, i: nat, before: JsString)
    requires i < |digests|
    ensures before + Join(QuoteAll(digests[..i])) + (if i == 0 then [] else [COMMA]) + Quote(digests[i])
         == before + Join(QuoteAll(digests[..i + 1]))
  {
    hide Quote, Join, QuoteAll;
    JoinOneMore(digests[..i], digests[i]);
    assert digests[..i + 1] == digests[..i] + [digests[i]];
  }

  /** What every iteration keeps: the hasher holds the tag, the head, and the digests so far. */
  ghost predicate Streaming(hasher: IncrementalDigest, digests: seq<JsString>, i: nat)
    requires i <= |digests|
    reads hasher
  {
    var text := Tag(DATASET) + Head() + Join(QuoteAll(digests[..i]));
    && !hasher.finalized && hasher.state == Utf8.Encode(text) && IsScalarSequence(text)
    && (forall j | 0 <= j < i :: IsHexDigest(digests[j]))
    && SortedDigests(digests[..i])
  }

  method BeginStream(backend: Backend, ghost digests: seq<JsString>) returns (hasher: IncrementalDigest)
    modifies backend
    ensures fresh(hasher) && hasher.backend == backend && Streaming(hasher, digests, 0)
  {
    hide Head, Tag, Quote, IsHexDigest;
    hasher := new IncrementalDigest(backend);
    PiecesAreScalar();
    Feed(hasher, [], Tag(DATASET));
    Feed(hasher, [] + Tag(DATASET), Head());
    assert digests[..0] == [] && [] + Tag(DATASET) == Tag(DATASET);
    assert Join(QuoteAll([])) == [];
    assert Tag(DATASET) + Head() + [] == Tag(DATASET) + Head();
  }

  /** One iteration: rejects a string that is not 64 hex digits or that precedes its predecessor. */
  method StreamOne(hasher: IncrementalDigest, ghost digests: seq<JsString>, ghost i: nat,
                   previous: Option<JsString>, digest: JsString)
    returns (ok: bool)
    requires i < |digests| && digest == digests[i] && Streaming(hasher, digests, i)
    requires previous == if i == 0 then None else Some(digests[i - 1])
    modifies hasher, hasher.backend
    ensures ok <==> IsHexDigest(digest) && (i > 0 ==> Ordering.Compare(digests[i - 1], digest) <= 0)
    ensures ok ==> Streaming(hasher, digests, i + 1)
  {
    hide Head, Tag, Quote, Join, QuoteAll, IsHexDigest, SortedDigests;
    if !IsHexDigest(digest) {
      return false;
    }
    if previous.Some? {
      var difference := Ordering.CompareJcsUtf16(previous.value, digest);
      if difference > 0 {
        return false;
      }
    }
    StillSorted(digests, i);
    OneMoreDigest(digests, i, Tag(DATASET) + Head());
    FeedDigest(hasher, Tag(DATASET) + Head() + Join(QuoteAll(digests[..i])), digest, previous.None?);
    ok := true;
  }

  /** The lists that stream: 64 lower-case hexadecimal digits each, none before the one it follows. */
  lemma StreamableLists(digests: seq<JsString>)
    ensures (forall d | d in digests :: IsHexDigest(d)) && SortedDigests(digests) <==>
            && (forall i | 0 <= i < |digests| :: |digests[i]| == 64 && forall u | u in digests[i] :: u in Ascii("0123456789abcdef"))
            && (forall i, j | 0 <= i < j < |digests| :: digests[i] == digests[j] || Ordering.Precedes(digests[i], digests[j]))
  {
    hide Ordering.Precedes;
    forall d ensures IsHexDigest(d) <==> |d| == 64 && forall u | u in d :: u in Ascii("0123456789abcdef") {
      HexUnitsAre(d);
    }
    assert (forall d | d in digests :: IsHexDigest(d)) <==> forall i | 0 <= i < |digests| :: IsHexDigest(digests[i]);
    hide IsHexDigest;
    forall i, j | 0 <= i < j < |digests|
      ensures ByUtf16()(digests[i], digests[j]) <==> digests[i] == digests[j] || Ordering.Precedes(digests[i], digests[j])
    {
      Ordering.CompareIsLexicographic(digests[i], digests[j]);
    }
  }

  lemma HexUnitsAre(d: JsString)
    ensures IsHexDigest(d) <==> |d| == 64 && forall u | u in d :: u in Ascii("0123456789abcdef")
  {
    forall u: CodeUnit ensures IsHexUnit(u) <==> u in Ascii("0123456789abcdef") {
      HexUnitIs(u);
    }
    hide IsHexUnit, Ascii;
    assert (forall i | 0 <= i < |d| :: IsHexUnit(d[i])) <==> forall u | u in d :: IsHexUnit(u);
  }

  lemma HexUnitIs(u: CodeUnit)
    ensures IsHexUnit(u) <==> u in Ascii("0123456789abcdef")
  {
    var digits := Ascii("0123456789abcdef");
    if IsHexUnit(u) {
      var i := if u < 0x40 then u - 0x30 else u - 0x57;
      assert digits[i] == u;
    }
  }

  /** The streaming identity rejects exactly the lists that are not sorted lists of 64-hex digests; for
      the others it digests byte for byte what the batch form digests. */
  method HashV2DatasetIdentityFromSortedRecordDigests(backend: Backend, digests: seq<JsString>)
    returns (hex: Option<string>)
    modifies backend
    ensures hex.Some? <==> (forall d | d in digests :: IsHexDigest(d)) && SortedDigests(digests)
    ensures hex.Some? ==> WellFormed(DatasetEnvelope(digests))
    ensures hex.Some? ==> hex.value == backend.blake3(Preimage(DATASET, DatasetEnvelope(digests)))
  {
    hide WellFormed, DatasetEnvelope, Print, Head, Foot, Tag, Quote, Join, QuoteAll, IsHexDigest, SortedDigests, Streaming;
    hide Preimage, Utf8.Encode;
    var hasher := BeginStream(backend, digests);
    var previous := None;
    for i := 0 to |digests|
      invariant hasher.backend == backend && fresh(hasher)
      invariant Streaming(hasher, digests, i)
      invariant previous == if i == 0 then None else Some(digests[i - 1])
    {
      var ok := StreamOne(hasher, digests, i, previous, digests[i]);
      if !ok {
        if i > 0 && SortedDigests(digests) {
          SortedNeighbours(digests, i);
        }
        assert digests[i] in digests;
        return None;
      }
      previous := Some(digests[i]);
    }
    StreamedAll(hasher, digests);
    PiecesAreScalar();
    ghost var fed := Tag(DATASET) + Head() + Join(QuoteAll(digests));
    Feed(hasher, fed, Foot());
    hex := hasher.DigestHex();
    StreamedText(digests, fed + Foot());
  }

  lemma StreamedAll(hasher: IncrementalDigest, digests: seq<JsString>)
    requires Streaming(hasher, digests, |digests|)
    ensures var text := Tag(DATASET) + Head() + Join(QuoteAll(digests));
            !hasher.finalized && hasher.state == Utf8.Encode(text) && IsScalarSequence(text)
    ensures (forall d | d in digests :: IsHexDigest(d)) && SortedDigests(digests)
  {
    hide Head, Tag, Join, QuoteAll, IsHexDigest, SortedDigests, Utf8.Encode, IsScalarSequence;
    assert digests[..|digests|] == digests;
  }

  lemma StreamedText(digests: seq<JsString>, fed: JsString)
    requires (forall d | d in digests :: IsHexDigest(d)) && SortedDigests(digests)
    requires fed == Tag(DATASET) + Head() + Join(QuoteAll(digests)) + Foot()
    ensures WellFormed(DatasetEnvelope(digests))
    ensures Utf8.Encode(fed) == Preimage(DATASET, DatasetEnvelope(digests))
  {
    hide WellFormed, DatasetEnvelope, Print, Head, Foot, Tag, Join, QuoteAll, IsHexDigest;
    HexIsScalar(digests);
    EnvelopeText(digests);
    SortIs(digests, digests);
    assert fed == Tag(DATASET) + Print(DatasetEnvelope(digests));
  }

  ghost predicate IsAscii(t: JsString) {
    forall i | 0 <= i < |t| :: t[i] < 0x80
  }

  lemma {:induction false} QuoteIsAscii(s: JsString)
    requires IsAscii(s)
    ensures IsAscii(Escape(s)) && IsAscii(Quote(s))
  {
    if s != [] {
      QuoteIsAscii(s[1..]);
      assert IsAscii(EscapeUnit(s[0]));
    }
  }

  lemma PiecesAreScalar()
    ensures IsScalarSequence(Tag(DATASET)) && IsScalarSequence(Head()) && IsScalarSequence(Foot())
    ensures IsScalarSequence([COMMA]) && IsScalarSequence([])
  {
    hide Head, Foot, Tag, Quote, Ascii, IsAscii;
    QuotesAreAscii();
    HeadAndFootAreScalar();
    JustCommaIsScalar();
    TagIsScalar(DATASET);
  }

  lemma TagIsScalar(name: string)
    ensures IsScalarSequence(Tag(name))
  {
    AsciiIsScalar(Tag(name));
  }

  lemma QuotesAreAscii()
    ensures IsAscii(Quote(IDENTITY_PROFILE)) && IsAscii(Quote(RECORD_DIGESTS)) && IsAscii(Quote(RECORD_SCHEMA_VERSION))
    ensures IsAscii(Quote(Ascii(V2_IDENTITY_PROFILE))) && IsAscii(Quote(Ascii(V2_RECORD_SCHEMA_VERSION)))
  {
    hide Quote, Escape;
    QuoteIsAscii(IDENTITY_PROFILE);
    QuoteIsAscii(RECORD_DIGESTS);
    QuoteIsAscii(RECORD_SCHEMA_VERSION);
    QuoteIsAscii(Ascii(V2_IDENTITY_PROFILE));
    QuoteIsAscii(Ascii(V2_RECORD_SCHEMA_VERSION));
  }

  lemma HeadAndFootAreScalar()
    requires IsAscii(Quote(IDENTITY_PROFILE)) && IsAscii(Quote(RECORD_DIGESTS)) && IsAscii(Quote(RECORD_SCHEMA_VERSION))
    requires IsAscii(Quote(Ascii(V2_IDENTITY_PROFILE))) && IsAscii(Quote(Ascii(V2_RECORD_SCHEMA_VERSION)))
    ensures IsScalarSequence(Head()) && IsScalarSequence(Foot())
  {
    hide Quote, Ascii;
    assert IsAscii(Head()) && IsAscii(Foot());
    AsciiIsScalar(Head());
    AsciiIsScalar(Foot());
  }

  lemma QuotedDigest(d: JsString)
    requires IsHexDigest(d)
    ensures Quote(d) == [QUOTE] + d + [QUOTE] && IsScalarSequence(Quote(d))
  {
    HexNeedsNoEscape(d);
    AsciiIsScalar(Quote(d));
  }

  lemma SortedNeighbours(digests: seq<JsString>, i: nat)
    requires 0 < i < |digests| && SortedDigests(digests)
    ensures Ordering.Compare(digests[i - 1], digests[i]) <= 0
  {
    assert ByUtf16()(digests[i - 1], digests[i]);
  }

  /** Comparing neighbours is enough: the order is transitive. */
  lemma StillSorted(digests: seq<JsString>, i: nat)
    requires i < |digests| && SortedDigests(digests[..i])
    requires i > 0 ==> Ordering.Compare(digests[i - 1], digests[i]) <= 0
    ensures SortedDigests(digests[..i + 1])
  {
    forall j | 0 <= j < i ensures Ordering.AtMost(digests[j], digests[i]) {
      Ordering.CompareIsTotalOrder(digests[j], digests[i - 1], digests[i]);
      if j < i - 1 {
        assert ByUtf16()(digests[..i][j], digests[..i][i - 1]);
      }
    }
  }
}
