/** Datasets of record revisions: one-by-one admission, order-independent identity, and reads. */
module Datasets {
  import opened Text
  import opened Json
  import opened IncrementalDigests
  import DatasetIdentity
  import Domains
  import JsonSameness
  import Ordering
  import Utf8

  const MAX_SAFE_INTEGER := 9007199254740991

  /** What `createRecordRevisionV2` makes of an input that it does not reject. */
  datatype Revision = Revision(id: JsString, digest: JsString, json: JsString)

  datatype Limits = Limits(maxRecords: int, maxCanonicalBytes: int, maxRecordBytes: int)

  predicate SafeInteger(n: int) {
    0 <= n <= MAX_SAFE_INTEGER
  }

  predicate ValidLimits(limits: Limits) {
    SafeInteger(limits.maxRecords) && SafeInteger(limits.maxCanonicalBytes) && SafeInteger(limits.maxRecordBytes)
  }

  /** Bytes of the canonical record in UTF-8. */
  function BytesOf(r: Revision): nat {
    |Utf8.Encode(r.json)|
  }

  function TotalBytes(records: seq<Revision>): nat {
    if records == [] then 0 else TotalBytes(records[..|records| - 1]) + BytesOf(records[|records| - 1])
  }

  predicate UniqueIds(records: seq<Revision>) {
    forall i, j | 0 <= i < j < |records| :: records[i].id != records[j].id
  }

  /** One digest never stands for two canonical records. */
  predicate NoCollision(records: seq<Revision>) {
    forall r, s | r in records && s in records && r.digest == s.digest :: r.json == s.json
  }

  /** What a list of revisions must satisfy, whatever its order. */
  predicate Acceptable(records: seq<Revision>, limits: Limits) {
    && |records| <= limits.maxRecords
    && (forall r | r in records :: BytesOf(r) <= limits.maxRecordBytes)
    && TotalBytes(records) <= limits.maxCanonicalBytes
    && UniqueIds(records)
    && NoCollision(records)
  }

  /** A list is acceptable exactly when it is not too long, no record and no total is too large, no two records
      share an id, and records of one digest are the same text. */
  lemma AcceptableMeans(records: seq<Revision>, limits: Limits)
    ensures Acceptable(records, limits) <==>
            && |records| <= limits.maxRecords && TotalBytes(records) <= limits.maxCanonicalBytes
            && (forall i | 0 <= i < |records| :: |Utf8.Encode(records[i].json)| <= limits.maxRecordBytes)
            && (forall i, j | 0 <= i < |records| && 0 <= j < |records| ::
                  && (records[i].id == records[j].id ==> i == j)
                  && (records[i].digest == records[j].digest ==> records[i].json == records[j].json))
  {
    hide TotalBytes, Utf8.Encode;
    assert forall i | 0 <= i < |records| :: records[i] in records;
    if Acceptable(records, limits) {
      forall i, j | 0 <= i < |records| && 0 <= j < |records| && records[i].id == records[j].id ensures i == j {
        assert !(i < j) && !(j < i);
      }
    }
  }

  /** Totals add up, record by record. */
  lemma {:induction false} TotalsAdd(a: seq<Revision>, b: seq<Revision>)
    ensures TotalBytes([]) == 0 && forall r :: TotalBytes([r]) == |Utf8.Encode(r.json)|
    ensures TotalBytes(a + b) == TotalBytes(a) + TotalBytes(b)
    decreases |b|
  {
    forall r ensures TotalBytes([r]) == |Utf8.Encode(r.json)| {
      assert [r][..0] == [];
    }
    if b == [] {
      assert a + b == a;
    } else {
      var last := |b| - 1;
      TotalsAdd(a, b[..last]);
      assert (a + b)[..|a + b| - 1] == a + b[..last];
    }
  }

  // ---- Admission, one record at a time ----

  /** `V2DatasetBuildState` */
  class BuildState {
    const limits: Limits
    var retained: seq<Revision>
    var recordIds: set<JsString>
    var canonicalByDigest: map<JsString, JsString>
    var canonicalBytes: int

    ghost predicate Valid()
      reads this
    {
      && ValidLimits(limits)
      && Acceptable(retained, limits)
      && IdsAre(recordIds, retained)
      && DigestsAre(canonicalByDigest, retained)
      && canonicalBytes == TotalBytes(retained)
      // The running sum stays a safe integer.
      && SafeInteger(canonicalBytes)
    }

    constructor (limits: Limits)
      requires ValidLimits(limits)
      ensures Valid() && this.limits == limits && retained == []
    {
      this.limits := limits;
      retained, recordIds, canonicalByDigest, canonicalBytes := [], {}, map[], 0;
    }

    /** `assertV2RecordIdentityAvailable` */
    predicate IdentityAvailable(revision: Revision)
      reads this
    {
      && revision.id !in recordIds
      && (revision.digest in canonicalByDigest ==> canonicalByDigest[revision.digest] == revision.json)
    }

    /** Admits the next record exactly when the list stays acceptable, and otherwise changes nothing. */
    method Append(input: Option<Revision>) returns (ok: bool)
      requires Valid()
      modifies this
      ensures Valid()
      ensures ok <==> input.Some? && Acceptable(old(retained) + [input.value], limits)
      ensures retained == if ok then old(retained) + [input.value] else old(retained)
    {
      hide Acceptable, TotalBytes, BytesOf, IdsAre, DigestsAre, FitsIn;
      if |retained| >= limits.maxRecords {
        TooMany(retained, input, limits);
        return false;
      }
      if input.None? {
        return false;
      }
      var revision := input.value;
      var recordBytes := BytesOf(revision);
      AcceptableOneMore(retained, revision, limits);
      if recordBytes > limits.maxRecordBytes || recordBytes > limits.maxCanonicalBytes - canonicalBytes {
        return false;
      }
      AvailableExactly(revision);
      if !IdentityAvailable(revision) {
        return false;
      }
      OneMoreBytes(retained, revision);
      IdsOneMore(recordIds, retained, revision);
      DigestsOneMore(canonicalByDigest, retained, revision);
      canonicalBytes := canonicalBytes + recordBytes;
      retained := retained + [revision];
      recordIds := recordIds + {revision.id};
      canonicalByDigest := canonicalByDigest[revision.digest := revision.json];
      ok := true;
    }

    lemma AvailableExactly(revision: Revision)
      requires Valid()
      ensures IdentityAvailable(revision) <==> FitsIn(retained, revision)
    {
      if revision.digest in canonicalByDigest {
        var r :| r in retained && r.digest == revision.digest;
      }
    }
  }

  ghost predicate IdsAre(ids: set<JsString>, records: seq<Revision>) {
    forall id :: id in ids <==> exists r :: r in records && r.id == id
  }

  ghost predicate DigestsAre(byDigest: map<JsString, JsString>, records: seq<Revision>) {
    && (forall r | r in records :: r.digest in byDigest && byDigest[r.digest] == r.json)
    && (forall d | d in byDigest :: exists r :: r in records && r.digest == d)
  }

  lemma IdsOneMore(ids: set<JsString>, records: seq<Revision>, revision: Revision)
    requires IdsAre(ids, records)
    ensures IdsAre(ids + {revision.id}, records + [revision])
  {
    var more := records + [revision];
    assert forall r :: r in more <==> r in records || r == revision;
  }

  lemma DigestsOneMore(byDigest: map<JsString, JsString>, records: seq<Revision>, revision: Revision)
    requires DigestsAre(byDigest, records)
    requires revision.digest in byDigest ==> byDigest[revision.digest] == revision.json
    ensures DigestsAre(byDigest[revision.digest := revision.json], records + [revision])
  {
    var more := records + [revision];
    assert forall r :: r in more <==> r in records || r == revision;
  }

  /** Neither the id nor the digest of the revision clashes with the records. */
  predicate FitsIn(records: seq<Revision>, revision: Revision) {
    && (forall r | r in records :: r.id != revision.id)
    && (forall r | r in records && r.digest == revision.digest :: r.json == revision.json)
  }

  lemma OneMoreBytes(records: seq<Revision>, revision: Revision)
    ensures TotalBytes(records + [revision]) == TotalBytes(records) + BytesOf(revision)
  {
    assert (records + [revision])[..|records|] == records;
  }

  lemma TooMany(records: seq<Revision>, input: Option<Revision>, limits: Limits)
    requires |records| >= limits.maxRecords
    ensures input.Some? ==> !Acceptable(records + [input.value], limits)
  {
  }

  /** What one more record needs. */
  lemma AcceptableOneMore(records: seq<Revision>, revision: Revision, limits: Limits)
    ensures Acceptable(records + [revision], limits) <==>
            Acceptable(records, limits) &&
            |records| < limits.maxRecords && BytesOf(revision) <= limits.maxRecordBytes &&
            TotalBytes(records) + BytesOf(revision) <= limits.maxCanonicalBytes && FitsIn(records, revision)
  {
    OneMoreBytes(records, revision);
    UniqueOneMore(records, revision);
    var more := records + [revision];
    assert forall r :: r in more <==> r in records || r == revision;
    hide TotalBytes, BytesOf, UniqueIds;
  }

  lemma UniqueOneMore(records: seq<Revision>, revision: Revision)
    ensures UniqueIds(records + [revision]) <==> UniqueIds(records) && forall r | r in records :: r.id != revision.id
  {
    var more := records + [revision];
    if UniqueIds(more) {
      forall i, j | 0 <= i < j < |records| ensures records[i].id != records[j].id {
        assert more[i].id != more[j].id;
      }
      forall r | r in records ensures r.id != revision.id {
        var i :| 0 <= i < |records| && records[i] == r;
        assert more[i].id != more[|records|].id;
      }
    }
  }

  // ---- Building ----

  predicate AllValid(inputs: seq<Option<Revision>>) {
    forall input | input in inputs :: input.Some?
  }

  function Unwrap(inputs: seq<Option<Revision>>): (records: seq<Revision>)
    requires AllValid(inputs)
    ensures |records| == |inputs| && forall i | 0 <= i < |inputs| :: Some(records[i]) == inputs[i]
  {
    assert forall i | 0 <= i < |inputs| :: inputs[i] in inputs;
    seq(|inputs|, i requires 0 <= i < |inputs| && inputs[i].Some? => inputs[i].value)
  }

  /** `compareRevisionIdentityAscii` */
  predicate IdentityAtMost(a: Revision, b: Revision) {
    if a.digest == b.digest then Ordering.AtMost(a.id, b.id) else Ordering.AtMost(a.digest, b.digest)
  }

  function ByIdentity(): (Revision, Revision) -> bool {
    (a: Revision, b: Revision) => IdentityAtMost(a, b)
  }

  function Digests(records: seq<Revision>): (digests: seq<JsString>)
    ensures |digests| == |records| && forall i | 0 <= i < |records| :: digests[i] == records[i].digest
  {
    seq(|records|, i requires 0 <= i < |records| => records[i].digest)
  }

  ghost predicate HexDigests(records: seq<Revision>) {
    forall r | r in records :: DatasetIdentity.IsHexDigest(r.digest)
  }

  lemma DigestsAreHex(records: seq<Revision>)
    requires HexDigests(records)
    ensures forall d | d in Digests(records) :: DatasetIdentity.IsHexDigest(d)
  {
    hide DatasetIdentity.IsHexDigest;
    forall d | d in Digests(records) ensures DatasetIdentity.IsHexDigest(d) {
      var i :| 0 <= i < |records| && Digests(records)[i] == d;
      assert records[i] in records;
    }
  }

  /** A frozen dataset. */
  class V2Dataset {
    const records: seq<Revision>
    const recordsById: map<JsString, Revision>
    const canonicalBytes: int
    const version: string

    ghost predicate Valid() {
      && UniqueIds(records)
      && canonicalBytes == TotalBytes(records)
      && (forall id :: id in recordsById <==> exists r :: r in records && r.id == id)
      && (forall id | id in recordsById :: recordsById[id] in records && recordsById[id].id == id)
    }

    constructor (backend: Backend, records: seq<Revision>, canonicalBytes: int)
      requires HexDigests(records) && UniqueIds(records) && canonicalBytes == TotalBytes(records)
      modifies backend
      ensures Valid() && this.records == records && this.canonicalBytes == canonicalBytes
      ensures WellFormed(DatasetIdentity.DatasetEnvelope(Digests(records)))
      ensures version == backend.blake3(Domains.Preimage(Domains.DATASET, DatasetIdentity.DatasetEnvelope(Digests(records))))
    {
      hide WellFormed, DatasetIdentity.DatasetEnvelope, Domains.Preimage, DatasetIdentity.IsHexDigest, TotalBytes;
      DigestsAreHex(records);
      DatasetIdentity.HexIsScalar(Digests(records));
      var hashed := DatasetIdentity.HashV2DatasetIdentity(backend, Digests(records));
      var byId: map<JsString, Revision> := map[];
      for i := 0 to |records|
        invariant forall id :: id in byId <==> exists j :: 0 <= j < i && records[j].id == id
        invariant forall id | id in byId :: byId[id] in records && byId[id].id == id
      {
        byId := byId[records[i].id := records[i]];
      }
      this.version, this.records, this.recordsById, this.canonicalBytes := hashed.value, records, byId, canonicalBytes;
    }

    /** Agrees with a scan for the id. */
    method Get(recordId: JsString) returns (found: Option<Revision>)
      requires Valid()
      ensures found.Some? <==> exists r :: r in records && r.id == recordId
      ensures found.Some? ==> found.value.id == recordId && forall r | r in records && r.id == recordId :: r == found.value
    {
      found := if recordId in recordsById then Some(recordsById[recordId]) else None;
      if found.Some? {
        forall r | r in records && r.id == recordId ensures r == found.value {
          var i :| 0 <= i < |records| && records[i] == r;
          var j :| 0 <= j < |records| && records[j] == found.value;
        }
      }
    }

    /** A page of records; None for an invalid offset or limit. */
    function Records(offset: int, limit: Option<int>): (page: Option<seq<Revision>>) {
      if !SafeInteger(offset) || (limit.Some? && !SafeInteger(limit.value)) then None
      else if offset >= |records| then Some([])
      else
        var available := |records| - offset;
        var take := if limit.Some? && limit.value < available then limit.value else available;
        Some(records[offset..offset + take])
    }
  }

  /** `V2Dataset.fromRecords`: succeeds exactly on valid limits and an acceptable list of valid inputs. */
  method FromRecords(backend: Backend, inputs: seq<Option<Revision>>, limits: Limits) returns (dataset: Option<V2Dataset>)
    requires AllValid(inputs) ==> HexDigests(Unwrap(inputs))
    modifies backend
    ensures dataset.Some? <==> ValidLimits(limits) && AllValid(inputs) && Acceptable(Unwrap(inputs), limits)
    ensures dataset.Some? ==> dataset.value.Valid() && SafeInteger(dataset.value.canonicalBytes)
    ensures dataset.Some? ==> dataset.value.records == Ordering.Sort(Unwrap(inputs), ByIdentity())
    ensures dataset.Some? ==> multiset(dataset.value.records) == multiset(Unwrap(inputs)) && InIdentityOrder(dataset.value.records)
    ensures dataset.Some? ==> dataset.value.canonicalBytes == TotalBytes(Unwrap(inputs))
    ensures dataset.Some? ==> WellFormed(DatasetIdentity.DatasetEnvelope(Digests(dataset.value.records)))
    ensures dataset.Some? ==>
      dataset.value.version ==
      backend.blake3(Domains.Preimage(Domains.DATASET, DatasetIdentity.DatasetEnvelope(Digests(dataset.value.records))))
  {
    if !ValidLimits(limits) {
      return None;
    }
    var state := new BuildState(limits);
    for i := 0 to |inputs|
      invariant state.Valid() && state.limits == limits && fresh(state)
      invariant AllValid(inputs[..i]) && state.retained == Unwrap(inputs[..i])
    {
      OneMoreInput(inputs, i);
      var ok := state.Append(inputs[i]);
      if !ok {
        if AllValid(inputs) && Acceptable(Unwrap(inputs), limits) {
          RejectedForGood(inputs, i + 1, limits);
        }
        return None;
      }
    }
    assert inputs[..|inputs|] == inputs;
    SortedIsAlike(state.retained, limits);
    SortedIsInOrder(state.retained);
    var sorted := Ordering.Sort(state.retained, ByIdentity());
    var built := new V2Dataset(backend, sorted, state.canonicalBytes);
    dataset := Some(built);
  }

  lemma OneMoreInput(inputs: seq<Option<Revision>>, i: nat)
    requires i < |inputs| && AllValid(inputs[..i])
    ensures AllValid(inputs[..i + 1]) <==> inputs[i].Some?
    ensures inputs[i].Some? ==> Unwrap(inputs[..i + 1]) == Unwrap(inputs[..i]) + [inputs[i].value]
  {
    assert inputs[..i + 1] == inputs[..i] + [inputs[i]];
  }

  /** A list whose beginning is not acceptable is not acceptable. */
  lemma RejectedForGood(inputs: seq<Option<Revision>>, n: nat, limits: Limits)
    requires n <= |inputs| && AllValid(inputs) && Acceptable(Unwrap(inputs), limits)
    ensures AllValid(inputs[..n]) && Acceptable(Unwrap(inputs[..n]), limits)
  {
    assert Unwrap(inputs[..n]) == Unwrap(inputs)[..n];
    PrefixIsAcceptable(Unwrap(inputs), n, limits);
  }

  lemma {:induction false} PrefixIsAcceptable(records: seq<Revision>, n: nat, limits: Limits)
    requires n <= |records| && Acceptable(records, limits)
    ensures Acceptable(records[..n], limits)
    decreases |records|
  {
    if n < |records| {
      var last := |records| - 1;
      assert records == records[..last] + [records[last]];
      AcceptableOneMore(records[..last], records[last], limits);
      PrefixIsAcceptable(records[..last], n, limits);
      assert records[..last][..n] == records[..n];
    } else {
      assert records[..n] == records;
    }
  }

  // ---- Order does not matter ----

  lemma {:induction false} RemoveBytes(records: seq<Revision>, i: nat)
    requires i < |records|
    ensures TotalBytes(records) == TotalBytes(records[..i] + records[i + 1..]) + BytesOf(records[i])
    decreases |records|
  {
    hide BytesOf;
    var last := |records| - 1;
    if i < last {
      RemoveBytes(records[..last], i);
      var others := records[..i] + records[i + 1..];
      assert others[..|others| - 1] == records[..last][..i] + records[..last][i + 1..];
    } else {
      assert records[..i] + records[i + 1..] == records[..last];
    }
  }

  lemma WithoutOne<T>(s: seq<T>, i: nat)
    requires i < |s|
    ensures multiset(s[..i] + s[i + 1..]) == multiset(s) - multiset{s[i]}
  {
    assert s == s[..i] + [s[i]] + s[i + 1..];
  }

  lemma {:induction false} PermutedBytes(a: seq<Revision>, b: seq<Revision>)
    requires multiset(a) == multiset(b)
    ensures TotalBytes(a) == TotalBytes(b)
    decreases |a|
  {
    hide BytesOf;
    assert |multiset(a)| == |a| && |multiset(b)| == |b|;
    if a != [] {
      var last := |a| - 1;
      assert a[last] in multiset(b);
      var i :| 0 <= i < |b| && b[i] == a[last];
      WithoutOne(b, i);
      WithoutOne(a, last);
      RemoveBytes(a, last);
      RemoveBytes(b, i);
      hide TotalBytes;
      PermutedBytes(a[..last] + a[last + 1..], b[..i] + b[i + 1..]);
    }
  }

  lemma TwiceIn<T>(s: seq<T>, i: nat, j: nat)
    requires i < j < |s| && s[i] == s[j]
    ensures multiset(s)[s[i]] >= 2
  {
    WithoutOne(s, j);
    assert s[i] in s[..j] + s[j + 1..] by {
      assert (s[..j] + s[j + 1..])[i] == s[i];
    }
    assert s[i] in multiset(s[..j] + s[j + 1..]);
  }

  lemma PermutedIds(a: seq<Revision>, b: seq<Revision>)
    requires multiset(a) == multiset(b) && UniqueIds(a)
    ensures UniqueIds(b)
  {
    forall i, j | 0 <= i < j < |b| ensures b[i].id != b[j].id {
      if b[i] == b[j] {
        TwiceIn(b, i, j);
        OnceWhenUnique(a, b[i]);
      } else {
        assert b[i] in multiset(a) && b[j] in multiset(a);
        var k :| 0 <= k < |a| && a[k] == b[i];
        var l :| 0 <= l < |a| && a[l] == b[j];
        assert k < l || l < k;
      }
    }
  }

  lemma OnceWhenUnique(records: seq<Revision>, r: Revision)
    requires UniqueIds(records)
    ensures multiset(records)[r] <= 1
  {
    assert Distinct(records);
    JsonSameness.CountOfDistinct(records, r);
  }

  lemma PermutedIsAcceptable(a: seq<Revision>, b: seq<Revision>, limits: Limits)
    requires multiset(a) == multiset(b) && Acceptable(a, limits)
    ensures Acceptable(b, limits)
  {
    assert |multiset(a)| == |a| && |multiset(b)| == |b|;
    PermutedBytes(a, b);
    PermutedIds(a, b);
    assert forall r | r in b :: r in multiset(b) && r in multiset(a);
    assert forall r | r in b :: r in a;
    hide BytesOf, TotalBytes, UniqueIds;
  }

  lemma IdentityIsTotal()
    ensures Ordering.TotalPreorder(ByIdentity())
    ensures forall r: Revision, s: Revision | IdentityAtMost(r, s) && IdentityAtMost(s, r) :: r.digest == s.digest && r.id == s.id
  {
    forall r: Revision, s: Revision, t: Revision
      ensures IdentityAtMost(r, s) || IdentityAtMost(s, r)
      ensures IdentityAtMost(r, s) && IdentityAtMost(s, t) ==> IdentityAtMost(r, t)
      ensures IdentityAtMost(r, s) && IdentityAtMost(s, r) ==> r.digest == s.digest && r.id == s.id
    {
      Ordering.CompareIsTotalOrder(r.digest, s.digest, t.digest);
      Ordering.CompareIsTotalOrder(s.digest, r.digest, t.digest);
      Ordering.CompareIsTotalOrder(s.digest, t.digest, r.digest);
      Ordering.CompareIsTotalOrder(r.id, s.id, t.id);
      Ordering.CompareIsTotalOrder(s.id, r.id, t.id);
    }
  }

  /** The sorted records are a permutation. */
  lemma SortedIsAlike(records: seq<Revision>, limits: Limits)
    requires Acceptable(records, limits)
    ensures var sorted := Ordering.Sort(records, ByIdentity());
            multiset(sorted) == multiset(records) && UniqueIds(sorted) && TotalBytes(sorted) == TotalBytes(records)
    ensures HexDigests(records) ==> HexDigests(Ordering.Sort(records, ByIdentity()))
  {
    var sorted := Ordering.Sort(records, ByIdentity());
    Ordering.SortKeepsElements(records, ByIdentity());
    PermutedIds(records, sorted);
    PermutedBytes(records, sorted);
    assert forall r | r in sorted :: r in multiset(sorted) && r in multiset(records);
    assert forall r | r in sorted :: r in records;
  }

  /** Digests ascend by code units, and ids ascend among records of one digest. */
  ghost predicate InIdentityOrder(records: seq<Revision>) {
    forall i, j | 0 <= i < j < |records| ::
      || Ordering.Precedes(records[i].digest, records[j].digest)
      || (records[i].digest == records[j].digest && Ordering.Precedes(records[i].id, records[j].id))
  }

  lemma SortedIsInOrder(records: seq<Revision>)
    requires UniqueIds(records)
    ensures InIdentityOrder(Ordering.Sort(records, ByIdentity()))
  {
    hide Ordering.Precedes, Ordering.Sort, Ordering.TotalPreorder, IdentityAtMost;
    var sorted := Ordering.Sort(records, ByIdentity());
    IdentityIsTotal();
    Ordering.SortOrders(records, ByIdentity());
    Ordering.SortKeepsElements(records, ByIdentity());
    PermutedIds(records, sorted);
    forall i, j | 0 <= i < j < |sorted|
      ensures || Ordering.Precedes(sorted[i].digest, sorted[j].digest)
              || (sorted[i].digest == sorted[j].digest && Ordering.Precedes(sorted[i].id, sorted[j].id))
    {
      assert ByIdentity()(sorted[i], sorted[j]);
      StrictlyBefore(sorted[i], sorted[j]);
    }
  }

  lemma StrictlyBefore(a: Revision, b: Revision)
    requires IdentityAtMost(a, b) && a.id != b.id
    ensures Ordering.Precedes(a.digest, b.digest) || (a.digest == b.digest && Ordering.Precedes(a.id, b.id))
  {
    hide Ordering.Precedes;
    Ordering.CompareIsLexicographic(a.digest, b.digest);
    Ordering.CompareIsLexicographic(a.id, b.id);
  }

  lemma NoTiesWhenUnique(records: seq<Revision>)
    requires UniqueIds(records)
    ensures Ordering.NoTies(records, ByIdentity())
  {
    IdentityIsTotal();
    forall r, s | r in records && s in records && ByIdentity()(r, s) && ByIdentity()(s, r) ensures r == s {
      assert IdentityAtMost(r, s) && IdentityAtMost(s, r);
      var i :| 0 <= i < |records| && records[i] == r;
      var j :| 0 <= j < |records| && records[j] == s;
      assert i == j || i < j || j < i;
    }
  }

  lemma {:induction false} PermutedInputs(a: seq<Option<Revision>>, b: seq<Option<Revision>>)
    requires multiset(a) == multiset(b)
    ensures AllValid(a) <==> AllValid(b)
    ensures AllValid(a) ==> multiset(Unwrap(a)) == multiset(Unwrap(b))
    decreases |a|
  {
    assert |multiset(a)| == |a| && |multiset(b)| == |b|;
    assert forall input :: input in a <==> input in multiset(a);
    assert forall input :: input in b <==> input in multiset(b);
    if a != [] && AllValid(a) {
      var last := |a| - 1;
      assert a[last] in multiset(b);
      var i :| 0 <= i < |b| && b[i] == a[last];
      WithoutOne(b, i);
      WithoutOne(a, last);
      PermutedInputs(a[..last] + a[last + 1..], b[..i] + b[i + 1..]);
      hide AllValid, Unwrap;
      UnwrapWithout(a, last);
      UnwrapWithout(b, i);
      PutBack(Unwrap(a), last, Unwrap(b), i);
    }
  }

  lemma UnwrapWithout(inputs: seq<Option<Revision>>, i: nat)
    requires AllValid(inputs) && i < |inputs|
    ensures AllValid(inputs[..i] + inputs[i + 1..])
    ensures Some(Unwrap(inputs)[i]) == inputs[i]
    ensures multiset(Unwrap(inputs[..i] + inputs[i + 1..])) == multiset(Unwrap(inputs)) - multiset{Unwrap(inputs)[i]}
  {
    WithoutOne(Unwrap(inputs), i);
    assert Unwrap(inputs)[..i] + Unwrap(inputs)[i + 1..] == Unwrap(inputs[..i] + inputs[i + 1..]);
  }

  lemma PutBack<T>(a: seq<T>, i: nat, b: seq<T>, j: nat)
    requires i < |a| && j < |b| && a[i] == b[j] && multiset(a) - multiset{a[i]} == multiset(b) - multiset{b[j]}
    ensures multiset(a) == multiset(b)
  {
    assert a[i] in multiset(a) && b[j] in multiset(b);
    assert multiset(a) == multiset(a) - multiset{a[i]} + multiset{a[i]};
    assert multiset(b) == multiset(b) - multiset{b[j]} + multiset{b[j]};
  }

  /** Order independence: every permutation of the inputs is accepted or rejected alike, and, if accepted,
      gives the same records in the same order, and so the same version. */
  lemma OrderDoesNotMatter(a: seq<Option<Revision>>, b: seq<Option<Revision>>, limits: Limits)
    requires multiset(a) == multiset(b)
    ensures AllValid(a) && Acceptable(Unwrap(a), limits) <==> AllValid(b) && Acceptable(Unwrap(b), limits)
    ensures AllValid(a) && Acceptable(Unwrap(a), limits) ==>
      AllValid(b) && Ordering.Sort(Unwrap(a), ByIdentity()) == Ordering.Sort(Unwrap(b), ByIdentity())
  {
    PermutedInputs(a, b);
    if AllValid(a) {
      if Acceptable(Unwrap(a), limits) {
        PermutedIsAcceptable(Unwrap(a), Unwrap(b), limits);
        IdentityIsTotal();
        NoTiesWhenUnique(Unwrap(a));
        Ordering.SortIgnoresOrder(Unwrap(a), Unwrap(b), ByIdentity());
      }
      if Acceptable(Unwrap(b), limits) {
        PermutedIsAcceptable(Unwrap(b), Unwrap(a), limits);
      }
    }
  }

  // ---- Pages ----

  function Page(records: seq<Revision>, offset: nat, limit: nat): seq<Revision> {
    if offset >= |records| then []
    else if offset + limit <= |records| then records[offset..offset + limit]
    else records[offset..]
  }

  function Pages(records: seq<Revision>, offset: nat, limit: nat): seq<Revision>
    requires limit > 0
    decreases |records| - offset
  {
    if offset >= |records| then [] else Page(records, offset, limit) + Pages(records, offset + limit, limit)
  }

  /** Consecutive pages concatenate to the whole. */
  lemma {:induction false} PagesConcatenate(records: seq<Revision>, offset: nat, limit: nat)
    requires limit > 0 && offset <= |records|
    ensures Pages(records, offset, limit) == records[offset..]
    decreases |records| - offset
  {
    if offset + limit <= |records| {
      PagesConcatenate(records, offset + limit, limit);
      assert records[offset..] == records[offset..offset + limit] + records[offset + limit..];
    }
  }

  /** The pages that a dataset serves are those. */
  lemma RecordsArePages(dataset: V2Dataset, offset: nat, limit: nat)
    requires SafeInteger(offset) && SafeInteger(limit)
    ensures dataset.Records(offset, Some(limit)) == Some(Page(dataset.records, offset, limit))
    ensures dataset.Records(offset, None) == Some(Page(dataset.records, offset, |dataset.records|))
  {
    if offset < |dataset.records| {
      assert dataset.records[offset..] == dataset.records[offset..offset + (|dataset.records| - offset)];
    }
  }

  // ---- Working sets ----

  function SumOf(sizes: seq<int>): int {
    if sizes == [] then 0 else SumOf(sizes[..|sizes| - 1]) + sizes[|sizes| - 1]
  }

  /** The sum of sizes, whichever way they are split. */
  lemma {:induction false} SumsAdd(a: seq<int>, b: seq<int>)
    ensures SumOf([]) == 0 && forall size :: SumOf([size]) == size
    ensures SumOf(a + b) == SumOf(a) + SumOf(b)
    decreases |b|
  {
    forall size ensures SumOf([size]) == size {
      assert [size][..0] == [];
    }
    if b == [] {
      assert a + b == a;
    } else {
      var last := |b| - 1;
      SumsAdd(a, b[..last]);
      assert (a + b)[..|a + b| - 1] == a + b[..last];
    }
  }

  /** `checkedAdd`: the sum, unless it leaves the safe range. */
  method CheckedAdd(current: int, next: int) returns (r: Option<int>)
    ensures r == if SafeInteger(current) && SafeInteger(next) && SafeInteger(current + next) then Some(current + next) else None
    ensures r.Some? <==> 0 <= current && 0 <= next && current + next < 0x20_0000_0000_0000
  {
    if !SafeInteger(current) || !SafeInteger(next) || next > MAX_SAFE_INTEGER - current {
      return None;
    }
    r := Some(current + next);
  }

  lemma {:induction false} PartialSums(sizes: seq<int>, i: nat)
    requires i <= |sizes| && forall size | size in sizes :: size >= 0
    ensures 0 <= SumOf(sizes[..i]) <= SumOf(sizes)
    decreases |sizes|
  {
    if sizes != [] {
      var front := sizes[..|sizes| - 1];
      assert forall size | size in front :: size in sizes;
      assert sizes[|sizes| - 1] in sizes;
      if i < |sizes| {
        PartialSums(front, i);
        assert front[..i] == sizes[..i];
      } else {
        PartialSums(front, |front|);
        assert front[..|front|] == front && sizes[..i] == sizes;
      }
    }
  }

  /** `estimateV2TransformWorkingSet`: the exact total of the input datasets, the output bound and the frame,
      or an error exactly when it is not a safe integer. */
  method EstimateWorkingSet(inputs: seq<V2Dataset>, outputBytes: int, frameBytes: int) returns (total: Option<int>)
    requires forall d | d in inputs :: SafeInteger(d.canonicalBytes)
    ensures total == if SafeInteger(outputBytes) && SafeInteger(frameBytes) && SafeInteger(SumOf(SizesOf(inputs)) + outputBytes + frameBytes)
                     then Some(SumOf(SizesOf(inputs)) + outputBytes + frameBytes) else None
  {
    if !SafeInteger(outputBytes) || !SafeInteger(frameBytes) {
      return None;
    }
    var sum := 0;
    var sizes := SizesOf(inputs);
    forall size | size in sizes ensures size >= 0 {
      var i :| 0 <= i < |sizes| && sizes[i] == size;
      assert inputs[i] in inputs;
    }
    for i := 0 to |inputs|
      invariant sum == SumOf(sizes[..i]) && SafeInteger(sum)
    {
      assert sizes[..i + 1][..i] == sizes[..i] && inputs[i] in inputs;
      PartialSums(sizes, i + 1);
      var added := CheckedAdd(sum, inputs[i].canonicalBytes);
      if added.None? {
        return None;
      }
      sum := added.value;
    }
    assert sizes[..|inputs|] == sizes;
    total := CheckedAdd(sum, outputBytes);
    if total.Some? {
      total := CheckedAdd(total.value, frameBytes);
    }
  }

  function SizesOf(inputs: seq<V2Dataset>): (sizes: seq<int>)
    ensures |sizes| == |inputs| && forall i | 0 <= i < |inputs| :: sizes[i] == inputs[i].canonicalBytes
  {
    seq(|inputs|, i requires 0 <= i < |inputs| => inputs[i].canonicalBytes)
  }
}
