# Databench core: a verified model

Databench stores datasets of JSON records under content addresses, runs transforms over them through leased
worker jobs, and imports model artifacts from studio sessions.  This project models the parts of it whose
correctness is hardest to see from the code, and proves what they promise.

* **Compact Thrift preflight** (`CompactThrift*.dfy`).  The scanner that looks at a Parquet footer before a
  real decoder may.  A grammar (`ParseFields`) says which tree a byte string denotes, a walk over trees says
  what the budgets charge, and the scanner, which never builds a tree, is proved to be the two fused.  `Wire`,
  `Paths` and `Nodes` say in plain numbers what the bytes, the captured keys and the budgets are.
* **Canonical JSON and identities** (`Ordering`, `Json*`, `Utf8`, `Domains`, `DatasetIdentity`,
  `IncrementalDigest`).  The RFC 8785 printer (sections 3.2.2.2, 3.2.2.3 and 3.2.3), domain-tagged hash
  preimages, the streaming dataset identity, and logical hashers that share one backend.
* **Registration** (`Lineage`, `Registry*`, `Keyset`).  Snapshots, layouts, record revisions with immutable
  parent edges, runs, and the paging of runs under a sequence snapshot.
* **Transform jobs** (`TransformJob*.dfy`).  The lease protocol: one row at a time holds the fence, attempts
  are numbered, leases expire, staged objects belong to an attempt, and completion registers its output,
  records a run and adopts a ref in one transaction.
* **Model artifacts** (`ModelArtifact*.dfy`).  Studio sessions and artifact imports, two tables that guard
  each other, and the finalizer that turns an import into an immutable artifact.
* **Patches, datasets, file tokens** (`SwiftPatch`, `Datasets`, `FileTokens`).

Code that changes state is modelled in place: the scanner's `Reader`, the hashers, the catalog's tables, the
dataset builder and the token registry are classes whose methods have the source's branches and loops.  Each
public catalog method is one transaction.  Its contract says that it keeps the class's `Valid()`, which is the
protocol's invariant, that the new state is `Apply` of the old state to one call, and what it answers; the
theorems are about arbitrary finite runs of such calls, mixed in any order.  The lemmas in `*Transitions` and
`*Outcomes` then say for each call, from the stored rows and the clock alone, exactly when it writes, every
column it writes and what it answers.  Lease tokens, owner tokens, ids, random bytes and the clocks are inputs;
the database clock never goes back.  Column types and CHECK, UNIQUE and foreign-key constraints come from
`prisma/migrations`.

Where the code falls short of its own schema: `createOrReadTransformJob` settles a new job from a cached run
without comparing the run's output with the job's input, while the table demands
`output_count <= input_count`.  `TransformJobTheorems.CreationSucceeds` gives the exact condition under
which creation works, and `CacheHitMayFail` two registrations and a request that reach the failing case.

## Model

| member | source | states |
|---|---|---|
| CompactThrift.VarintRoundTrip | packages/engine/src/v2/compact-thrift-preflight.ts:172-180 | every number that fits the byte limit is read back from its varint, and the bytes after it are left alone |
| CompactThrift.VarintIsShortest | packages/engine/src/v2/compact-thrift-preflight.ts:172-180 | an accepted varint, padded or not, fits the limit, and no accepted form is shorter than the encoder's |
| CompactThriftWire.VarintDenotes | packages/engine/src/v2/compact-thrift-preflight.ts:172-180 | bytes whose first k - 1 have the top bit and whose k-th has not are accepted exactly if k is within the limit, and denote the sum of their low seven bits times powers of 128 |
| CompactThriftWire.EndlessVarint | packages/engine/src/v2/compact-thrift-preflight.ts:172-180 | bytes that all have the top bit are rejected |
| CompactThrift.ZigZagRoundTrip | packages/engine/src/v2/compact-thrift-preflight.ts:153-164 | zigzag numbers of both signs are read back |
| CompactThriftWire.ZigZagAlternates | packages/engine/src/v2/compact-thrift-preflight.ts:153-164 | even codes count up from zero, odd codes down from minus one |
| CompactThriftWire.FieldHeaderIs | packages/engine/src/v2/compact-thrift-preflight.ts:68-81 | low nibble zero ends a struct; otherwise it is the type, and the high nibble the distance from the previous id, zero announcing a signed id of at most three bytes that must be larger |
| CompactThriftWire.ListHeaderIs | packages/engine/src/v2/compact-thrift-preflight.ts:123-127 | low nibble item type, high nibble length up to 14, 15 announcing a varint of at most five bytes |
| CompactThriftWire.LeafIs | packages/engine/src/v2/compact-thrift-preflight.ts:98-122 | what each type without nesting denotes and how many bytes it takes, by type number; every other type but list and struct is rejected |
| CompactThrift.ElementRoundTrip | packages/engine/src/v2/compact-thrift-preflight.ts:91-151 | the grammar reads any encodable element, nested to any depth, back from its encoding and stops exactly at its end |
| CompactThrift.ItemsRoundTrip | packages/engine/src/v2/compact-thrift-preflight.ts:123-144 | likewise the items of a list, with the count that the list header gave |
| CompactThrift.FieldsRoundTrip | packages/engine/src/v2/compact-thrift-preflight.ts:60-89 | likewise a struct, short and long field headers alike, up to its stop byte |
| CompactThrift.ElementIsEncodable | packages/engine/src/v2/compact-thrift-preflight.ts:91-151 | conversely, bytes that the grammar accepts denote an encodable element of the announced type, whose encoding is no longer |
| CompactThrift.FieldsAreEncodable | packages/engine/src/v2/compact-thrift-preflight.ts:60-89 | and accepted struct bodies denote encodable structs: strictly increasing field ids, homogeneous lists |
| CompactThriftBudgets.WalkElementExact | packages/engine/src/v2/compact-thrift-preflight.ts:91-151 | charging an element step by step succeeds exactly when its shape and its totals are within limits, and then adds exactly the element's own counts and captures |
| CompactThriftBudgets.WalkStructExact | packages/engine/src/v2/compact-thrift-preflight.ts:60-89 | the same for a struct: the budgets depend on the tree, not on where in it they run out |
| CompactThriftBudgets.CaptureAllHolds | packages/engine/src/v2/compact-thrift-preflight.ts:84-87 | capturing succeeds exactly when no path repeats, and the map then holds exactly the captured paths and values |
| CompactThriftPaths.CapturesAreKeyed | packages/engine/src/v2/compact-thrift-preflight.ts:82-87 | what a struct captures is its fields in order, each under the ids on the way to it joined by dots, with [] after an id for every list entered below it |
| CompactThriftPaths.KeyIsUnique | packages/engine/src/v2/compact-thrift-preflight.ts:82-140 | different ways from the root never give the same key |
| CompactThriftPaths.PathsRepeatLikePositions | packages/engine/src/v2/compact-thrift-preflight.ts:82-87 | so a path repeats if and only if two fields are reached by the same ids through equally many lists, which are fields of different items of a list |
| CompactThriftPaths.FlatTreesNeverRepeat | packages/engine/src/v2/compact-thrift-preflight.ts:82-87 | an encodable tree in which no list leads to a struct never repeats a path |
| CompactThriftPaths.CaptureIs | packages/engine/src/v2/compact-thrift-preflight.ts:86-122 | the type number and the scalar that each kind of value is captured with |
| CompactThriftNodes.BudgetsAreTotals | packages/engine/src/v2/compact-thrift-preflight.ts:60-144 | a tree is within its budgets if and only if every node is within the depth, binary and list limits, the numbers of structs, fields and list items over all nodes are within theirs, and, when capturing, no two fields are reached in the same way |
| CompactThriftWire.TwoLevels | packages/engine/src/v2/compact-thrift-preflight.ts:82-87 | an input on which a missing separator would show: the bytes 1C 21 00 B1 00 denote a tree whose fields have the keys 1.2, 1 and 12 |
| CompactThriftScanner.Reader.ReadByte | packages/engine/src/v2/compact-thrift-preflight.ts:182-194 | takes the next byte, or fails at the end of the input |
| CompactThriftScanner.Reader.Skip | packages/engine/src/v2/compact-thrift-preflight.ts:190-194 | passes over bytes exactly when the input has them |
| CompactThriftScanner.Reader.ReadUnsigned | packages/engine/src/v2/compact-thrift-preflight.ts:166-180 | the shift-and-add loop computes what the grammar's recursive varint says and accepts exactly what it accepts |
| CompactThriftScanner.Reader.ReadZigZag | packages/engine/src/v2/compact-thrift-preflight.ts:153-164 | likewise for signed numbers |
| CompactThriftScanner.Reader.ReadFieldId | packages/engine/src/v2/compact-thrift-preflight.ts:66-76 | delta and explicit field ids agree with the grammar, including ids that do not increase |
| CompactThriftScanner.Reader.ScanStruct | packages/engine/src/v2/compact-thrift-preflight.ts:60-89 | the in-place scan of a struct succeeds exactly when its bytes parse to a struct that the budgeted walk accepts, ends where the parse ends, and leaves the walk's totals and captures; it consumes at least one byte and always terminates |
| CompactThriftScanner.Reader.ScanElement | packages/engine/src/v2/compact-thrift-preflight.ts:91-151 | the same for an element of any type; everything but a boolean consumes a byte |
| CompactThriftScanner.Reader.ScanLeaf | packages/engine/src/v2/compact-thrift-preflight.ts:99-122 | scalars and binaries are read as the grammar reads them; only a binary over its limit is refused beyond that |
| CompactThriftScanner.Reader.ScanList | packages/engine/src/v2/compact-thrift-preflight.ts:123-144 | the same for a list, whose declared size is charged before any item is read |
| CompactThriftPreflight.PreflightCompactThrift | packages/engine/src/v2/compact-thrift-preflight.ts:43-58 | on every byte string and every limits: accepts exactly the inputs with a prefix that parses to a tree within the budgets, reports how long that prefix is, and, when asked to, captures every field of the tree under its dotted ids and no other key |
| CompactThriftPreflight.OutcomeOfTree | packages/engine/src/v2/compact-thrift-preflight.ts:60-151 | the totals after a successful scan are the tree's own counts and are within their limits |
| CompactThriftPreflight.EncodingsAreAccepted | packages/engine/src/v2/compact-thrift-preflight.ts:43-151 | the encoding of every tree followed by anything is accepted exactly when the tree is within the budgets, and the trailing bytes are ignored |
| CompactThriftPreflight.AcceptedInputsAreTrees | packages/engine/src/v2/compact-thrift-preflight.ts:43-151 | every accepted input denotes a tree, and re-encoding that tree is accepted with the same totals and captures |
| CompactThriftPreflight.ShapedBoundsDepth | packages/engine/src/v2/compact-thrift-preflight.ts:60-97 | an accepted tree is no deeper than the depth limit |
| Ordering.CompareJcsUtf16 | packages/hashing/src/v2/canonical-json.ts:3-14 | the index loop computes the comparison of code units; it is negative exactly when the left string is a proper prefix of the right one, or smaller at the first unit where they differ |
| Ordering.CompareIsLexicographic | packages/hashing/src/v2/canonical-json.ts:3-14 | the comparison is negative exactly in the lexicographic order, which is stated by prefixes and first differences |
| Ordering.FirstDifference | packages/hashing/src/v2/canonical-json.ts:6-13 | of any two strings one is a prefix of the other or they have a first difference, never both; the result is the difference of the lengths or of the units there |
| Ordering.CompareIsTotalOrder | packages/hashing/src/v2/canonical-json.ts:3-14 | that comparison is a strict total order: antisymmetric, transitive, and zero only on equal strings |
| Ordering.SortIgnoresOrder | packages/hashing/src/v2/canonical-json.ts:81-105 | sorting a list without ties depends only on its elements, not on their order |
| Json.AssertUnicodeScalarSequence | packages/hashing/src/v2/canonical-json.ts:120-135 | the loop accepts exactly the strings without an unpaired surrogate |
| JsonText.ScalarSequencesPair | packages/hashing/src/v2/canonical-json.ts:120-135 | these are the strings in which every high surrogate is followed by a low one and every low one preceded by a high one |
| JsonText.EscapesAre | packages/hashing/src/v2/canonical-json.ts:25-28 | the escape of every code unit: the two-character escapes, lower-case \u escapes of the other control characters, and everything else as it is |
| JsonText.QuotedText | packages/hashing/src/v2/canonical-json.ts:25-28 | a quoted string is the escapes of its units in order between quotation marks |
| JsonText.LeafText | packages/hashing/src/v2/canonical-json.ts:20-35 | the text of null, booleans and numbers; zero of either sign prints as 0 |
| JsonText.ArrayText | packages/hashing/src/v2/canonical-json.ts:63-79 | an array prints its items in order, joined by commas, between brackets |
| JsonText.ObjectText | packages/hashing/src/v2/canonical-json.ts:81-105 | an object prints one member for each key, the keys ascending in the lexicographic order of code units; each member is the quoted key, a colon and that key's own value |
| JsonReader.StringRoundTrip | packages/hashing/src/v2/canonical-json.ts:25-28 | an escaped string is read back, whatever follows its closing quote |
| JsonReader.ValueRoundTrip | packages/hashing/src/v2/canonical-json.ts:20-105 | a reader recovers every well-formed value from its canonical text, up to key order and the sign of zero, and stops at its end |
| JsonSameness.PrintIsUniquelyReadable | packages/hashing/src/v2/canonical-json.ts:16-105 | two values print alike exactly when they have the same normal form |
| JsonSameness.SameJsonIsNormalEquality | packages/catalog/src/v2/catalog.ts:6191-6225 | the catalog's recursive comparison of stored JSON decides equality of normal forms |
| JsonSameness.SameJsonIsSameText | packages/catalog/src/v2/catalog.ts:6191-6225 | so the catalog's comparison and the hasher's canonical text agree on all values |
| Utf8.EncodeIsInjective | packages/hashing/src/v2/domains.ts:394-396 | different well-formed strings have different UTF-8 bytes |
| JsonText.CodePointsAre | packages/hashing/src/v2/domains.ts:394-396 | the code point of a surrogate pair, and of any other unit |
| JsonText.TwoBytes | packages/hashing/src/v2/domains.ts:394-396 | code points below 0x800 and above ASCII take two bytes, a lead and a continuation byte that carry 5 and 6 bits |
| JsonText.ThreeBytes | packages/hashing/src/v2/domains.ts:394-396 | those below 0x10000 take three bytes carrying 4, 6 and 6 bits |
| JsonText.FourBytes | packages/hashing/src/v2/domains.ts:394-396 | all others take four bytes carrying 3, 6, 6 and 6 bits |
| Domains.PrintIsClean | packages/hashing/src/v2/canonical-json.ts:25-28 | canonical text contains no raw control character, so no NUL, and is well-formed UTF-16 |
| Domains.PreimagesAreSeparated | packages/hashing/src/v2/domains.ts:31-54 | two preimages are the same bytes exactly when their domain tags are equal and their values are the same JSON |
| JsonText.PreimageBytes | packages/hashing/src/v2/domains.ts:31-54 | a preimage is the bytes of the domain name, a zero byte, and the UTF-8 of the canonical text |
| DatasetIdentity.EnvelopeText | packages/hashing/src/v2/domains.ts:101-109 | for all digest strings that the encoder accepts, hex or not, the canonical text of a dataset envelope is head, sorted quoted digests and foot, in that order |
| DatasetIdentity.HashV2DatasetIdentity | packages/hashing/src/v2/domains.ts:101-114 | the batch form throws exactly when some string has an unpaired surrogate, and otherwise hashes the preimage of the envelope with its digests sorted |
| DatasetIdentity.StreamOne | packages/hashing/src/v2/domains.ts:127-140 | one step of the stream accepts exactly a hex digest not below its predecessor, and what has been fed stays a prefix of the envelope's text |
| DatasetIdentity.StreamableLists | packages/hashing/src/v2/domains.ts:127-140 | the lists the stream accepts: 64 lower-case hexadecimal digits each, every one equal to an earlier one or after it in the lexicographic order |
| DatasetIdentity.HashV2DatasetIdentityFromSortedRecordDigests | packages/hashing/src/v2/domains.ts:116-146 | the streaming form accepts exactly the sorted lists of hex digests and hashes the same preimage as the batch form |
| IncrementalDigests.IncrementalDigest.Update | packages/hashing/src/blake3.ts:40-47 | appends its chunk to this hasher's own bytes, or refuses once finalized |
| IncrementalDigests.IncrementalDigest.DigestHex | packages/hashing/src/blake3.ts:48-55 | answers once, with the hash of this hasher's own bytes, whatever the backend last held |
| IncrementalDigests.Interleave | packages/hashing/src/blake3.ts:35-57 | in any interleaving of calls on any number of hashers over one backend, each hasher ends, and each digest call answers, as if the hasher had run alone |
| IncrementalDigests.AbsorbsOwnChunks | packages/hashing/src/blake3.ts:35-57 | alone, a hasher absorbs exactly its own chunks in order |
| IncrementalDigests.FirstDigest | packages/hashing/src/blake3.ts:48-55 | alone, a new hasher's first digest is the hash of its own chunks up to that call, and every later one is refused |
| Lineage.SearchCycle | packages/catalog/src/v2/catalog.ts:3503-3545 | the closure search from the origins terminates at a fixpoint and finds an origin that reaches itself exactly when there is one |
| Lineage.ValidateRevisions | packages/catalog/src/v2/catalog.ts:3641-3657 | accepts exactly revisions with distinct ids and, each, distinct parents that are not the record itself |
| Lineage.LineageTables.InsertRevisions | packages/catalog/src/v2/catalog.ts:3414-3443 | inserting batch by batch creates exactly the revisions that were not located before, as inserting at once would |
| Lineage.LineageTables.InsertEdges | packages/catalog/src/v2/catalog.ts:3445-3459 | parent edges are added for created revisions only |
| Lineage.LineageTables.FindParentsConflict | packages/catalog/src/v2/catalog.ts:3461-3495 | finds a conflict exactly when some submitted parent list differs from the stored one |
| Lineage.LineageTables.FindCycle | packages/catalog/src/v2/catalog.ts:3497-3547 | looks for cycles only from created revisions that have parents |
| Lineage.NewCyclesPassThroughCreated | packages/catalog/src/v2/catalog.ts:3497-3547 | which is enough: edges added below created revisions to an acyclic graph can only close a cycle through a created revision with parents |
| Lineage.GraftExtends | packages/catalog/src/v2/catalog.ts:3445-3459 | the new edges give each created revision exactly its submitted parents and change no other parent list |
| Lineage.LineageTables.EnsureRecordRevisions | packages/catalog/src/v2/catalog.ts:3414-3547 | it succeeds exactly when stored parent lists agree and the grown graph is acyclic; in every case it has inserted exactly the new rows, which the enclosing transaction rolls back when the error names a real conflict or a real cycle |
| RegistryOutcomes.ValidRevisionsMean | packages/catalog/src/v2/catalog.ts:3641-3657 | valid revisions: no record id twice, no parent of the record itself, no parent record twice, said by positions |
| RegistryOutcomes.LineageOutcome | packages/catalog/src/v2/catalog.ts:3414-3547 | after a commit every submitted revision is located, the new ones in this dataset and with the parents submitted, all others as before; it may be committed exactly if the stored parent lists agree and no revision reaches itself afterwards |
| Registry.CommittedLineageIsKept | packages/catalog/src/v2/catalog.ts:3414-3547 | a committed registration leaves an acyclic graph in which every earlier parent list and location is unchanged |
| Registry.RegistrationKeepsTables | packages/catalog/src/v2/catalog.ts:3338-3632 | every registration keeps the tables consistent and every committed row unchanged |
| Registry.RegistrationsKeepTables | packages/catalog/src/v2/catalog.ts:586-608 | and so does every sequence of registrations, failed ones included |
| RegistryOutcomes.LayoutOutcome | packages/catalog/src/v2/catalog.ts:3338-3412 | a layout registers exactly if a stored snapshot and layout are the same, its manifest key is used by no other layout and its lineage fits; then exactly its rows are there, and otherwise nothing has changed |
| RegistryOutcomes.RunOutcome | packages/catalog/src/v2/catalog.ts:3577-3632 | a run registers exactly if it is new and its snapshots are there, or if the stored run has the same columns and the same canonical parameters; a new run gets the number just drawn |
| RegistryOutcomes.ResultOutcome | packages/catalog/src/v2/catalog.ts:597-608 | a transform result is registered whole or not at all; only the number drawn for the run stays |
| RegistryCatalog.RegistryTables.EnsureSnapshot | packages/catalog/src/v2/catalog.ts:3347-3373 | inserts or finds the same snapshot; a different one under the version is refused |
| RegistryCatalog.RegistryTables.EnsureLayout | packages/catalog/src/v2/catalog.ts:3375-3412 | inserts or finds the same layout; a different one, or a manifest key in use, is refused |
| RegistryCatalog.RegistryTables.RegisterLayoutInTransaction | packages/catalog/src/v2/catalog.ts:3338-3345 | succeeds exactly when snapshot, layout and lineage all can be registered, and then has added all three |
| RegistryCatalog.RegistryTables.RegisterRunInTransaction | packages/catalog/src/v2/catalog.ts:3577-3607 | draws a sequence number in any case; registers a run, or accepts an equal one under its cache key |
| RegistryCatalog.RegistryTables.ValidateRegistrationInput | packages/catalog/src/v2/catalog.ts:3634-3658 | accepts exactly the inputs whose versions, record count and revisions agree |
| RegistryCatalog.RegistryTables.RegisterCommittedLayout | packages/catalog/src/v2/catalog.ts:586-595 | all or nothing, and the tables stay consistent |
| RegistryCatalog.RegistryTables.RegisterTransformResult | packages/catalog/src/v2/catalog.ts:597-608 | succeeds exactly when inputs are valid, the layout registers and the run registers on top of it; all or nothing but the sequence number, and the tables stay consistent |
| Keyset.SeekDropsPrefix | packages/catalog/src/v2/catalog.ts:2976-3044 | seeking past the i-th key leaves exactly the keys after it, in order |
| Keyset.PagesPartition | packages/catalog/src/v2/catalog.ts:2976-3044 | under any total order, n pages followed by their cursors read exactly the first n times limit keys, each once |
| RegistryCatalog.SnapshotIsStable | packages/catalog/src/v2/catalog.ts:2956-2974 | later registrations never change which runs a sequence snapshot selects, and it selects all runs there were |
| RegistryCatalog.PageIsSlice | packages/catalog/src/v2/catalog.ts:2976-3044 | one page, its two queries seeing different later tables, is the slice after the cursor of the runs at snapshot time |
| RegistryCatalog.SnapshotPaging | packages/catalog/src/v2/catalog.ts:2976-3044 | following cursors under a fixed sequence, with registrations interleaved anywhere, yields the runs producing the version at snapshot time, each once and in key order |
| RegistryCatalog.ProducersAscend | packages/catalog/src/v2/catalog.ts:2976-3044 | those are exactly the runs with that output version, in ascending lexicographic order of the code units of their keys |
| TransformJobs.NextJob | packages/catalog/src/v2/catalog.ts:2674-2680 | a non-empty queue has exactly one next job: the least by creation time, then id |
| TransformJobTransitions.NextHeadsQueue | packages/catalog/src/v2/catalog.ts:2674-2680 | it is the queued job to which every other queued job is later, or equally old with a larger id; and only that one |
| TransformJobInvariant.WrittenIsOk | packages/catalog/src/v2/catalog.ts:2704-2954 | whatever guarded update applies to a row, the row still satisfies the table's constraints and the row reader, never gains a fence, and keeps its identity, output and ref |
| TransformJobInvariant.ClaimKeepsInv | packages/catalog/src/v2/catalog.ts:2650-2702 | claiming keeps the invariant, above all that one row at most holds a lease token |
| TransformJobInvariant.ExpiryKeepsInv | packages/catalog/src/v2/catalog.ts:2888-2905 | so does failing all expired leases at once |
| TransformJobInvariant.AdoptionIsOk | packages/catalog/src/v2/catalog.ts:6098-6137 | adopting a result ref always decides it, updated or conflict, naming a registered version; it fails only for an unknown namespace |
| TransformJobInvariant.SettleIsOk | packages/catalog/src/v2/catalog.ts:2551-2602 | settling a queued row from a cached run never reaches its consistency errors and yields a row the reader accepts |
| TransformJobInvariant.CreatedIsOk | packages/catalog/src/v2/catalog.ts:2442-2606 | creating or reading a job never throws a consistency error, in any reachable state |
| TransformJobInvariant.CreateKeepsInv | packages/catalog/src/v2/catalog.ts:2442-2606 | and keeps the invariant |
| TransformJobInvariant.ReadbackIsOk | packages/catalog/src/v2/catalog.ts:630-662 | replaying a completion answers with the stored row exactly when attempt, version and count are those of the completion |
| TransformJobInvariant.FinishIsOk | packages/catalog/src/v2/catalog.ts:664-706 | once registration succeeded, completion either keeps the invariant or fails with a lease error |
| TransformJobInvariant.CompletionKeepsInv | packages/catalog/src/v2/catalog.ts:610-706 | completion keeps the invariant and never throws a consistency or constraint error |
| TransformJobInvariant.CallKeepsInv | packages/catalog/src/v2/catalog.ts:2442-2954 | every call of the protocol, registrations and ref writes included, keeps the invariant |
| TransformJobInvariant.RunKeepsInv | packages/catalog/src/v2/catalog.ts:2442-2954 | and so does every run of calls |
| TransformJobTheorems.ReachableStates | packages/catalog/src/v2/catalog.ts:4406-4486 | from an empty database, after any calls in any order: one row at most is fenced, leased rows hold a token and queued and completed ones do not, staging keys are both null or exactly the attempt's and only on fenced or completed rows, completed rows have their run and snapshot with the right count and a decided ref, and every row decodes |
| TransformJobTransitions.ReachableJobsSay | packages/catalog/src/v2/catalog.ts:4406-4486 | column by column, what every reachable row says: output exactly with completion and no larger than the input, an error exactly with failure, an end exactly once it has stopped or completed, a whole lease or none, a pending ref until completion |
| TransformJobTheorems.StagedObjectsAreNotOrphaned | packages/catalog/src/v2/catalog.ts:2837-2934 | staging keys once set stay on their row, with its attempt, until a call that clears them after cleanup; a retry or a claim never drops them |
| TransformJobTheorems.CompletionIsAtomic | packages/catalog/src/v2/catalog.ts:610-706 | completion succeeds exactly under a stated condition on row, lease, staging keys and registration; the first success writes row, snapshot, layout, lineage, run and ref together and nothing else, a replay only reads back, and a throw leaves nothing but the clock and the drawn sequence number |
| TransformJobOutcomes.CompletionFillsIn | packages/catalog/src/v2/catalog.ts:664-700 | the first completion needs the lease to hold at its second look at the clock, and writes exactly output, ref decision, cache hit and end, clearing error and lease; every other column stays |
| TransformJobOutcomes.CompletionErrors | packages/catalog/src/v2/catalog.ts:610-662 | why a completion throws, in order: its own form, a missing job, another computation, another result, another status, a lease that is not the row's or has ended, missing staging keys |
| TransformJobOutcomes.DeliverableIsValid | packages/catalog/src/v2/catalog.ts:3669-3685 | the form of a completion, written out: one input, names made of the cache key, counts that agree with the layout's records |
| TransformJobOutcomes.ComputesIsMatching | packages/catalog/src/v2/catalog.ts:3687-3712 | the row is the computation that was run, compared column by column and by canonical parameters, with an output no larger than the input |
| TransformJobTheorems.CompletionIsFinal | packages/catalog/src/v2/catalog.ts:610-706 | a completed job stays completed with the same output, count and ref, and its run stays, whatever is called later |
| TransformJobTheorems.CreationSucceeds | packages/catalog/src/v2/catalog.ts:2442-2606 | a sound creation request succeeds if and only if there is no cached answer larger than the input; otherwise it throws a constraint violation |
| TransformJobOutcomes.NewJobIsQueued | packages/catalog/src/v2/catalog.ts:2483-2511 | a job that nobody has asked for or computed is queued: the whole row, column by column, and nothing else changes |
| TransformJobOutcomes.NewJobIsAnswered | packages/catalog/src/v2/catalog.ts:2475-2511 | a job that a registered run computed is completed on the spot as a cache hit: the whole row, and the ref it names decided |
| TransformJobOutcomes.ForeignRunThrows | packages/catalog/src/v2/catalog.ts:2460-2471 | a registered run with another operation, version, input or canonical parameters is a determinism conflict |
| TransformJobOutcomes.UnsoundRequestsThrow | packages/catalog/src/v2/catalog.ts:2443-2455 | a misnamed job, half a ref and an input without that many records are refused, and nothing changes |
| TransformJobOutcomes.DisagreementThrows | packages/catalog/src/v2/catalog.ts:5839-5868 | so is a request that differs from the stored job in any identity column, in its canonical parameters or in its ref |
| TransformJobOutcomes.ExistingJobIsRead | packages/catalog/src/v2/catalog.ts:2511-2602 | asking again for a job that is done or on its way only reads its row back |
| TransformJobOutcomes.ExistingJobIsNamed | packages/catalog/src/v2/catalog.ts:2513-2549 | a job on its way without a result ref takes the one that a later request names, as pending |
| TransformJobOutcomes.CompletedJobIsNamed | packages/catalog/src/v2/catalog.ts:2513-2549 | and a completed one decides it at once |
| TransformJobOutcomes.QueuedJobIsSettled | packages/catalog/src/v2/catalog.ts:2565-2602 | a queued job that was never claimed is completed from a run that has appeared since: the columns written, its ref decided |
| TransformJobTheorems.CacheHitMayFail | prisma/migrations/0007_transform_jobs_v2/migration.sql:56-59 | two registrations from an empty catalog, and a sound request after them that throws: a cached output of two records for an input of one |
| TransformJobTheorems.ClaimedJobCompletes | packages/catalog/src/v2/catalog.ts:610-706 | from every reachable state without a fence, claim, staging keys, running, finalizing and completion within the lease complete the next job and commit its result, with no other job changed |
| TransformJobHistory.RunFollows | packages/catalog/src/v2/catalog.ts:2650-2954 | over every run, no job disappears, attempts never decrease, a lost fence never comes back under the same attempt, and identities and results never change |
| TransformJobHistory.ClaimTakesNext | packages/catalog/src/v2/catalog.ts:2650-2702 | a claim changes nothing while a fence is held or the queue is empty; otherwise it leases exactly the next queued job under the next attempt number |
| TransformJobTransitions.ClaimMoves | packages/catalog/src/v2/catalog.ts:2650-2702 | with no token in any row, a claim leases the head of the queue: the columns written, the end of the lease at the duration from now, and the answer; with one, nothing happens |
| TransformJobTransitions.ClaimRefusals | packages/catalog/src/v2/catalog.ts:2650-2702 | a duration of no time or more than a day throws, and an empty queue gives None; nothing changes |
| TransformJobTransitions.ExhaustedClaim | packages/catalog/src/v2/catalog.ts:2682-2693 | a claim of the head of the queue at the last 32-bit attempt number throws and changes nothing |
| TransformJobTransitions.MalformedCallsThrow | packages/catalog/src/v2/catalog.ts:2704-2934 | exactly which arguments of the calls on one job throw, in numbers; they change nothing |
| TransformJobTransitions.SweepMoves | packages/catalog/src/v2/catalog.ts:2888-2905 | the sweep fails exactly the rows still worked on whose lease ends now or earlier, with its error and time, and touches no other column or row |
| TransformJobTransitions.RenewalMoves | packages/catalog/src/v2/catalog.ts:2704-2725 | a renewal writes exactly if the lease is in force (same attempt and token, ending strictly after now) and the row is worked on: its new end is the duration from now |
| TransformJobTransitions.StartMoves | packages/catalog/src/v2/catalog.ts:2727-2738 | a start writes exactly if the lease is in force and the row is leased, and keeps an earlier start time |
| TransformJobTransitions.ProgressMoves | packages/catalog/src/v2/catalog.ts:2740-2760 | progress is written exactly if the lease is in force and the row is running, and nothing but progress |
| TransformJobTransitions.KeyingMoves | packages/catalog/src/v2/catalog.ts:2762-2780 | the keys of the attempt, spelled out, are written exactly to a leased row that has none or has them |
| TransformJobTransitions.FinalizingMoves | packages/catalog/src/v2/catalog.ts:2782-2792 | finalizing is reached exactly from running, under a lease in force |
| TransformJobTransitions.StopMoves | packages/catalog/src/v2/catalog.ts:2794-2821 | failure and cancellation are written exactly under a lease in force while the row is worked on; fence and keys stay |
| TransformJobTransitions.CleanupMoves | packages/catalog/src/v2/catalog.ts:2837-2867 | keys and then fence of a stopped row are cleared exactly by its attempt and token, in force or not |
| TransformJobTransitions.CancellationRequestMoves | packages/catalog/src/v2/catalog.ts:2823-2835 | a cancellation request stops exactly a queued row or one that is worked on: status and end time, nothing else |
| TransformJobTransitions.CompletedCleanupMoves | packages/catalog/src/v2/catalog.ts:2869-2886 | the keys of a completed row are cleared exactly by its attempt, output and keys |
| TransformJobTransitions.RetryMoves | packages/catalog/src/v2/catalog.ts:2918-2934 | in every reachable state a retry answers with a row exactly when the job is failed or cancelled with no token and no keys; that row is queued, with identity, attempt, creation time and ref as they were and every other column empty; otherwise nothing changes and the answer is None |
| TransformJobHistory.ClaimedJobProceeds | packages/catalog/src/v2/catalog.ts:2693-2792 | until its lease expires, and no longer, a claimed row can be given its keys, started, moved to finalizing and renewed |
| TransformJobHistory.PowerlessForever | packages/catalog/src/v2/catalog.ts:2704-2867 | a lease that has expired or been superseded stays so through every run |
| TransformJobHistory.StaleLeasesArePowerless | packages/catalog/src/v2/catalog.ts:2936-2954 | and any call carrying it, at any later time, changes nothing but the staging keys or fence of its own failed or cancelled row |
| TransformJobHistory.CleanupClears | packages/catalog/src/v2/catalog.ts:2837-2916 | from every reachable state with a fence, at most three steps (sweep, clear keys, clear fence), each lowering a measure, leave no fence and the same queue |
| TransformJobHistory.QueueCannotWedge | packages/catalog/src/v2/catalog.ts:2837-2916 | after which a claim takes the least queued job, unless its attempt number has reached the top of the column's integer type |
| TransformJobTransitions.StoppedJobsRunAgain | packages/catalog/src/v2/catalog.ts:2837-2934 | no failed or cancelled job is stopped for good: after the cleanup of whatever fence there is, a retry queues it with its identity, age and attempt, and once it heads the queue a claim leases it under the next attempt |
| TransformJobList.JobPaging | packages/catalog/src/v2/catalog.ts:2614-2648 | on a static table, n pages by the descending (millisecond, id) cursor read exactly the first jobs of the listing order |
| TransformJobList.OrderListsJobsOnce | packages/catalog/src/v2/catalog.ts:2614-2648 | which lists every job once |
| TransformJobList.OrderIsNewestFirst | packages/catalog/src/v2/catalog.ts:2614-2648 | and goes back in time by whole milliseconds, within one from the larger id to the smaller |
| TransformJobCatalog.V2Catalog.RenewTransformJobLease | packages/catalog/src/v2/catalog.ts:2704-2725 | moves the expiry of exactly the active row whose attempt and token are given and not expired, and of no other; says whether it did |
| TransformJobCatalog.V2Catalog.MarkTransformJobRunning | packages/catalog/src/v2/catalog.ts:2727-2738 | starts exactly a leased row under its current lease, keeping an earlier start time |
| TransformJobCatalog.V2Catalog.UpdateTransformJobProgress | packages/catalog/src/v2/catalog.ts:2740-2760 | records progress of exactly a running row under its current lease |
| TransformJobCatalog.V2Catalog.SetTransformJobStagingKeys | packages/catalog/src/v2/catalog.ts:2762-2780 | gives exactly a leased row the keys of its attempt, or finds the same ones; any other keys throw |
| TransformJobCatalog.V2Catalog.MarkTransformJobFinalizing | packages/catalog/src/v2/catalog.ts:2782-2792 | moves exactly a running row to finalizing under its current lease |
| TransformJobCatalog.V2Catalog.MarkTransformJobFailed | packages/catalog/src/v2/catalog.ts:2794-2808 | fails exactly an active row under its current lease; fence and keys stay for cleanup |
| TransformJobCatalog.V2Catalog.MarkTransformJobCancelled | packages/catalog/src/v2/catalog.ts:2810-2821 | cancels exactly an active row under its current lease; fence and keys stay for cleanup |
| TransformJobCatalog.V2Catalog.RequestTransformJobCancellation | packages/catalog/src/v2/catalog.ts:2823-2835 | cancels a queued or active row without any lease, leaving its fence and keys, and reads back the row, changed or not |
| TransformJobCatalog.V2Catalog.ClearTransformJobLeaseFence | packages/catalog/src/v2/catalog.ts:2837-2852 | drops the fence of exactly a stopped row without keys, expired lease or not |
| TransformJobCatalog.V2Catalog.ClearTransformJobStagingKeys | packages/catalog/src/v2/catalog.ts:2854-2867 | forgets the keys of exactly a stopped row under its attempt and token, expired or not |
| TransformJobCatalog.V2Catalog.ClearCompletedTransformJobStagingKeys | packages/catalog/src/v2/catalog.ts:2869-2886 | forgets the keys of exactly a completed row with the very attempt, output and keys named |
| TransformJobCatalog.V2Catalog.FailExpiredTransformJobLeases | packages/catalog/src/v2/catalog.ts:2888-2905 | fails exactly the active rows whose lease has expired, and counts them |
| TransformJobCatalog.V2Catalog.FindTransformJobCleanupFence | packages/catalog/src/v2/catalog.ts:2907-2916 | finds the fenced failed or cancelled row if there is one; there is no other fence |
| TransformJobCatalog.V2Catalog.RetryTransformJob | packages/catalog/src/v2/catalog.ts:2918-2934 | takes the retry step and answers with the row it queued, or None |
| TransformJobCatalog.V2Catalog.TransitionTransformJob | packages/catalog/src/v2/catalog.ts:2936-2954 | writes a row exactly when the caller's lease is current, unexpired and the status is one of those allowed |
| TransformJobCatalog.V2Catalog.RegisterCommittedLayout | packages/catalog/src/v2/catalog.ts:586-595 | a registration is a step of the job protocol, and succeeds exactly when the layout registers |
| TransformJobCatalog.V2Catalog.RegisterTransformResult | packages/catalog/src/v2/catalog.ts:597-608 | likewise for a result, and succeeds exactly when layout and run register |
| TransformJobCatalog.V2Catalog.ClaimNextTransformJob | packages/catalog/src/v2/catalog.ts:2650-2702 | while no row is fenced it leases the queued row that no queued row precedes, which is the next one; the answer is that row, None, or the error of an exhausted attempt counter |
| TransformJobCatalog.V2Catalog.InsertTransformJob | packages/catalog/src/v2/catalog.ts:2446-2511 | reads the cache, adopts a ref on a hit and inserts or reads the row; conflicting requests and missing inputs throw |
| TransformJobCatalog.V2Catalog.AttachResultRef | packages/catalog/src/v2/catalog.ts:2513-2549 | gives an existing row the request's ref exactly when it has none |
| TransformJobCatalog.V2Catalog.SettleFromRun | packages/catalog/src/v2/catalog.ts:2551-2602 | completes a queued row from its cached run, adopting its ref |
| TransformJobCatalog.V2Catalog.CreateOrReadTransformJob | packages/catalog/src/v2/catalog.ts:2442-2606 | the three stages in one transaction: when any throws, the database is as before |
| TransformJobCatalog.V2Catalog.AdoptTransformJobResultRef | packages/catalog/src/v2/catalog.ts:6098-6137 | writes a ref only when it is absent or already the version, and reports which |
| TransformJobCatalog.V2Catalog.ValidateCompletion | packages/catalog/src/v2/catalog.ts:3669-3685 | accepts exactly completions whose layout, run and count agree |
| TransformJobCatalog.V2Catalog.FinishTransformJob | packages/catalog/src/v2/catalog.ts:664-700 | adopts the ref and completes the row under a second look at the lease |
| TransformJobCatalog.V2Catalog.RegisterAndFinish | packages/catalog/src/v2/catalog.ts:664-700 | registers layout and run before completing; nothing remains of a failure but the sequence number |
| TransformJobCatalog.V2Catalog.CompleteTransformJob | packages/catalog/src/v2/catalog.ts:610-706 | the whole transaction takes exactly the protocol's completion step |
| TransformJobCatalog.RowStep | packages/catalog/src/v2/catalog.ts:2704-2954 | any guarded update of one row, as a change of the job table, is a step of the protocol, so it keeps the invariant |
| ModelArtifactInvariant.OpenKeepsInv | packages/catalog/src/v2/catalog.ts:1019-1121 | opening a session keeps the invariant; the unique index keeps one session active |
| ModelArtifactInvariant.SessionCallKeepsInv | packages/catalog/src/v2/catalog.ts:1297-1439 | so does every session transition, reopening and preparation call |
| ModelArtifactInvariant.RequestKeepsInv | packages/catalog/src/v2/catalog.ts:1441-1556 | so does requesting an import, which needs a ready session |
| ModelArtifactInvariant.ImportCallKeepsInv | packages/catalog/src/v2/catalog.ts:1575-1745 | so does staging, finalizing, failing or cleaning an import |
| ModelArtifactInvariant.FinalizationIsReadable | packages/catalog/src/v2/catalog.ts:1747-1902 | from every reachable finalizing import, finalizing with the locator of its archive succeeds and writes an import and an artifact that both readers accept |
| ModelArtifactInvariant.FinalizationIsConsistent | packages/catalog/src/v2/catalog.ts:1747-1902 | finalization never throws a consistency error, and changes the tables only for a finalizing import and its own locator |
| ModelArtifactInvariant.FinalizeKeepsInv | packages/catalog/src/v2/catalog.ts:1747-1902 | finalization keeps the invariant |
| ModelArtifactInvariant.RunKeepsInv | packages/catalog/src/v2/catalog.ts:1019-1902 | every run of calls does |
| ModelArtifactInvariant.RunKeepsKeys | packages/catalog/src/v2/catalog.ts:1019-1556 | no run of calls makes two rows share a unique key, so the lookups that guard against several rows never find them |
| ModelArtifactTheorems.ReachableStates | packages/catalog/src/v2/catalog.ts:1297-1484 | after any calls from an empty catalog: at most one active session, no open import in a closing or closed session, an export for every session with an import, no two rows under one unique key, and every row decodes |
| ModelArtifactTransitions.ReachableRowsSay | packages/catalog/src/v2/catalog.ts:4905-5014 | column by column, what every reachable row says: a session has its export exactly from ready on, an import the columns of its stage and none of a later one, an artifact what its manifest says; and completed imports and artifacts name each other |
| ModelArtifactTheorems.FinalizationNeedsItsLocator | packages/catalog/src/v2/catalog.ts:5007-5014 | finalization succeeds if and only if it is given the locator of the import's archive digest |
| ModelArtifactTransitions.FinalizationMoves | packages/catalog/src/v2/catalog.ts:1747-1902 | a finalization completes the import and adds one artifact whose every column is the import's or the session's own, at the locator of the archive |
| ModelArtifactTransitions.OtherFinalizations | packages/catalog/src/v2/catalog.ts:1747-1800 | an import that is not finalizing changes nothing: a completed one answers with its artifact to the artifact's locator, everything else is a conflict |
| ModelArtifactTheorems.ImportIsDelivered | packages/catalog/src/v2/catalog.ts:1441-1902 | a request of a ready session can be carried through all four calls, however long they take, and the artifact then says exactly what request and manifest said, with no other row changed |
| ModelArtifactTheorems.RunFollows | packages/catalog/src/v2/catalog.ts:1297-1902 | over every run, sessions keep identity, options and export; imports keep their request, only move forward, and keep what each step wrote; artifacts never change |
| ModelArtifactTheorems.VerifiedForever | packages/catalog/src/v2/catalog.ts:1644-1692 | an artifact marked verified carries exactly its session's dataset version and export digest, forever |
| ModelArtifactTheorems.ExportIsFixed | packages/catalog/src/v2/catalog.ts:1441-1484 | the session of any import has an export digest, which never changes |
| ModelArtifactAnswers.OpeningReplays | packages/catalog/src/v2/catalog.ts:1056-1078 | a session that was opened can be asked for again at any later time: the answer is its row as it now is, and nothing changes |
| ModelArtifactAnswers.TransitionReplays | packages/catalog/src/v2/catalog.ts:1370-1399 | a session transition that succeeded can be repeated: the same answer, no further change |
| ModelArtifactTransitions.ReadyMoves | packages/catalog/src/v2/catalog.ts:1297-1400 | a found session becomes ready exactly when it is preparing and its owner token is the one given: the columns written; every other call leaves it, and answers with it if it already is ready with that export, and with a conflict if not |
| ModelArtifactTransitions.FailureMoves | packages/catalog/src/v2/catalog.ts:1297-1400 | it fails exactly when it is preparing and the token is its owner's; likewise otherwise |
| ModelArtifactTransitions.ClosingMoves | packages/catalog/src/v2/catalog.ts:1297-1400 | it goes to closing exactly when it is ready and all its imports are completed or failed, and to closed exactly when it is closing |
| ModelArtifactTransitions.ReopeningMoves | packages/catalog/src/v2/catalog.ts:1403-1439 | it goes back to ready exactly from closing |
| ModelArtifactTransitions.OwnerMoves | packages/catalog/src/v2/catalog.ts:1140-1198 | only its owner abandons a preparation, the first time counting, or renews it for five hours |
| ModelArtifactTransitions.TakeoverMoves | packages/catalog/src/v2/catalog.ts:1200-1246 | a preparation is taken over exactly when it has run out or was abandoned at least the grace period ago, from the owner that the claim names |
| ModelArtifactTransitions.OpeningMoves | packages/catalog/src/v2/catalog.ts:1019-1121 | a session opens exactly when no session is active and none has its provider id or creation key: the whole row, and the answer |
| ModelArtifactTransitions.MalformedSessionsThrow | packages/catalog/src/v2/catalog.ts:1019-1078 | exactly which export sizes, providers and export counts are refused, and that a session needs its namespace and dataset |
| ModelArtifactTransitions.ReopenedRequestIsRead | packages/catalog/src/v2/catalog.ts:4643-4660 | a request under the key of a stored session reads it back exactly if identity and canonical options are the same, and never opens another |
| ModelArtifactAnswers.RequestReplays | packages/catalog/src/v2/catalog.ts:1458-1483 | an import that was requested can be asked for again at any later time, whatever has become of it and of its session |
| ModelArtifactTransitions.RequestMoves | packages/catalog/src/v2/catalog.ts:1441-1556 | an import is inserted exactly for a ready session, under a new creation key and for an output that has none: the whole row, and the answer |
| ModelArtifactTransitions.RepeatedRequestIsRead | packages/catalog/src/v2/catalog.ts:5158-5172 | a request under the key of a stored import reads it back exactly if every column asked for is the same |
| ModelArtifactAnswers.ImportTransitionReplays | packages/catalog/src/v2/catalog.ts:1708-1745 | an import transition that succeeded can be repeated after any further calls: it changes nothing and answers the current row, or a conflict if the import has failed since |
| ModelArtifactTransitions.StagingMoves | packages/catalog/src/v2/catalog.ts:1603-1745 | an import is staged exactly when it is requested and no row has the provider import: the columns written, and each answer otherwise |
| ModelArtifactTransitions.FinalizingMoves | packages/catalog/src/v2/catalog.ts:1644-1745 | a staged import gets all columns of its archive at once exactly if the description fits it, its session and itself, every comparison written out; each answer otherwise |
| ModelArtifactTransitions.ImportFailureMoves | packages/catalog/src/v2/catalog.ts:1603-1745 | an import fails exactly before it is completed or failed: the columns written, and each answer otherwise |
| ModelArtifactTransitions.CleaningMoves | packages/catalog/src/v2/catalog.ts:1575-1601 | staging is marked cleaned exactly once, after completion or failure |
| ModelArtifactAnswers.ImportAnswersAreConsistent | packages/catalog/src/v2/catalog.ts:1656-1670 | no reachable import has lost its session |
| ModelArtifactCatalog.ArtifactCatalog.CreateOrReadSwiftStudioSession | packages/catalog/src/v2/catalog.ts:1019-1121 | inserts the new session, reads back the one under the same key if the request is the same, and throws a conflict or a constraint violation exactly otherwise |
| ModelArtifactCatalog.ArtifactCatalog.TransitionSwiftStudioSession | packages/catalog/src/v2/catalog.ts:1297-1401 | answers the row it wrote, or the row that already is what was asked for; None exactly for an unknown session, and a conflict exactly otherwise |
| ModelArtifactCatalog.ArtifactCatalog.ReopenBusySwiftStudioSession | packages/catalog/src/v2/catalog.ts:1403-1439 | takes the protocol's step and returns the session as it now is |
| ModelArtifactCatalog.ArtifactCatalog.AbandonSwiftStudioSessionPreparation | packages/catalog/src/v2/catalog.ts:1140-1169 | marks exactly a preparation of its owner, the first time counting |
| ModelArtifactCatalog.ArtifactCatalog.RenewSwiftStudioSessionPreparation | packages/catalog/src/v2/catalog.ts:1171-1198 | extends exactly a preparation of its owner and forgets its abandonment |
| ModelArtifactCatalog.ArtifactCatalog.ClaimSwiftStudioSessionPreparation | packages/catalog/src/v2/catalog.ts:1200-1246 | exactly a preparation of the observed owner that has expired or been abandoned long enough changes owner; the answer says whether, with the current row |
| ModelArtifactCatalog.ArtifactCatalog.CreateOrReadModelArtifactImport | packages/catalog/src/v2/catalog.ts:1441-1556 | reads back a same request under the same key; otherwise inserts exactly for a ready session and an output not yet imported, and says which error it is when not |
| ModelArtifactCatalog.ArtifactCatalog.MarkModelArtifactImportStagingCleaned | packages/catalog/src/v2/catalog.ts:1575-1601 | exactly settled imports are marked, the first time counting |
| ModelArtifactCatalog.ArtifactCatalog.StageModelArtifactImport | packages/catalog/src/v2/catalog.ts:1603-1745 | stages exactly a requested import; a provider import in use is a constraint violation, a replay reads back, anything else is a conflict |
| ModelArtifactCatalog.ArtifactCatalog.FailModelArtifactImport | packages/catalog/src/v2/catalog.ts:1603-1745 | fails exactly an unsettled import; the same failure reads back, anything else is a conflict |
| ModelArtifactCatalog.ArtifactCatalog.BeginFinalizingModelArtifactImport | packages/catalog/src/v2/catalog.ts:1644-1745 | a staged import moves to finalizing exactly when its manifest matches import and session; replay, conflict and mismatch are told apart |
| ModelArtifactCatalog.ArtifactCatalog.TransitionModelArtifactImport | packages/catalog/src/v2/catalog.ts:1603-1745 | the three transitions as one method, which never meets the inconsistency it guards against |
| ModelArtifactCatalog.ArtifactCatalog.FinalizeModelArtifactImport | packages/catalog/src/v2/catalog.ts:1747-1902 | takes the protocol's step and returns the import and the artifact as stored |
| SwiftPatch.ApplyFile | scripts/apply-swift-patch.py:32-65 | the loop over hunks, with its cursor and output, computes the recursive meaning of a patch, failures included |
| SwiftPatch.ApplyHunkLines | scripts/apply-swift-patch.py:49-62 | likewise the loop over a hunk's lines |
| SwiftPatch.LinesExactly | scripts/apply-swift-patch.py:49-62 | a hunk's lines apply at a position exactly when all are valid and the file has the old side there, and then emit the new side |
| SwiftPatch.WovenIsAccepted | scripts/apply-swift-patch.py:32-65 | well-formed hunks woven with any untouched chunks are accepted on the old weave and give the new one |
| SwiftPatch.AcceptedIsWoven | scripts/apply-swift-patch.py:32-65 | conversely every accepted file is such a weave: lines outside hunks are kept, in order |
| SwiftPatch.InverseRestores | scripts/apply-swift-patch.py:32-65 | whenever hunks are accepted, the inverse hunks are accepted on the result and restore the original |
| SwiftPatch.LengthChange | scripts/apply-swift-patch.py:32-65 | the length changes by the sum of new count minus old count |
| SwiftPatch.ExpectingHunksAreInRange | scripts/apply-swift-patch.py:39-48 | every accepted hunk with an old line lies within the file |
| SwiftPatch.EditIsMade | scripts/apply-swift-patch.py:45-65 | the lines marked - give way to the lines marked + exactly at the line the header names, after its context; what stands before and after stays |
| Datasets.BuildState.Append | packages/engine/src/v2/dataset.ts:223-256 | one append succeeds exactly when the records so far and the new one are acceptable together, and otherwise retains nothing |
| Datasets.BuildState.AvailableExactly | packages/engine/src/v2/dataset-invariants.ts:36-50 | looking only at the id set and the digest map decides whether the new record clashes with any retained one |
| Datasets.AcceptableOneMore | packages/engine/src/v2/dataset.ts:223-256 | acceptability of a whole list decomposes into these per-record checks |
| Datasets.AcceptableMeans | packages/engine/src/v2/dataset.ts:223-256 | acceptable: not too many, none and no total too large, no two positions with one id, and records of one digest with the same text |
| Datasets.TotalsAdd | packages/engine/src/v2/dataset.ts:223-256 | the total is the sum of the UTF-8 lengths of the canonical records, however the list is split |
| Datasets.FromRecords | packages/engine/src/v2/dataset.ts:91-129 | accepts a list exactly when limits, validity, counts, sizes, ids and digests all allow it; the records are then a permutation of the inputs in which digests ascend by code units, and ids among records of one digest, with their exact byte sum and the version of their digests |
| Datasets.SortedIsInOrder | packages/engine/src/v2/dataset.ts:309-323 | sorting records with distinct ids puts an earlier digest, or with equal digests an earlier id, strictly before, in the lexicographic order of code units |
| Datasets.OrderDoesNotMatter | packages/engine/src/v2/dataset.ts:91-129 | permutations of the inputs are accepted or rejected alike, with the same sorted records |
| Datasets.IdentityIsTotal | packages/engine/src/v2/dataset.ts:309-323 | the record order is total, and ties only between records equal in digest and id |
| Datasets.V2Dataset.constructor | packages/engine/src/v2/dataset.ts:65-89 | indexes the records by id and computes the version |
| Datasets.V2Dataset.Get | packages/engine/src/v2/dataset.ts:153-155 | agrees with a scan: finds a record exactly when one has the id, and then the only one |
| Datasets.RecordsArePages | packages/engine/src/v2/dataset.ts:139-151 | reading with an offset and a limit is a slice, clipped to the length |
| Datasets.PagesConcatenate | packages/engine/src/v2/dataset.ts:139-151 | consecutive pages of any size concatenate to the whole |
| Datasets.CheckedAdd | packages/engine/src/v2/dataset.ts:281-292 | adds exactly when operands and sum are safe integers |
| Datasets.EstimateWorkingSet | packages/engine/src/v2/dataset.ts:158-185 | the estimate is the exact sum, and is refused exactly when it would overflow, whatever the order of addition |
| Datasets.SumsAdd | packages/engine/src/v2/dataset.ts:158-185 | the sum of sizes, however they are split |
| FileTokens.NewRegistry | apps/api/src/mcp/file-tokens.ts:91-97 | a registry exists exactly for positive safe limits |
| FileTokens.McpFileTokenRegistry.SweepExpiredReady | apps/api/src/mcp/file-tokens.ts:183-187 | removes exactly the expired entries that are not active |
| FileTokens.McpFileTokenRegistry.SweptAre | apps/api/src/mcp/file-tokens.ts:183-187 | what survives a sweep: the entries that are active or end strictly after now |
| FileTokens.McpFileTokenRegistry.Prepare | apps/api/src/mcp/file-tokens.ts:107-149 | after a sweep, adds one ready entry under an unused token, or throws for exactly one of the stated reasons; the entry count stays within its limit |
| FileTokens.McpFileTokenRegistry.DrawToken | apps/api/src/mcp/file-tokens.ts:119-135 | takes the first of eight draws that is not in use |
| FileTokens.FirstFreeMeans | apps/api/src/mcp/file-tokens.ts:120-138 | each draw before the one taken was in use; a draw of another length ends the search with an error, and so do eight collisions |
| FileTokens.HexDigitsAre | apps/api/src/mcp/file-tokens.ts:125-125 | the digits of a token: two lower-case hexadecimal digits a byte, the high one first |
| FileTokens.TokensAreDistinct | apps/api/src/mcp/file-tokens.ts:118-125 | tokens are equal only if kind and bytes are |
| FileTokens.McpFileTokenRegistry.Begin | apps/api/src/mcp/file-tokens.ts:151-181 | begins exactly an entry that is filed under the token, of this kind, not active and ending strictly after now, below the active limit, and one never begun before |
| FileTokens.McpFileTokenRegistry.Start | apps/api/src/mcp/file-tokens.ts:166-172 | the active count and the handed-out handles grow by one together |
| FileTokens.Handle.Finish | apps/api/src/mcp/file-tokens.ts:173-179 | frees its entry and its slot the first time, and nothing the next times |
| FileTokens.RunCalls | apps/api/src/mcp/file-tokens.ts:107-187 | over every run of prepare, begin and finish, the active count equals the number of active entries, within the limits; every unfinished handle holds an active entry of its own; and no entry is ever handed out twice |

## Left out

- BLAKE3 itself: an uninterpreted function of the bytes; incremental hashing is taken to equal one-shot hashing.
- ECMAScript number printing: a number is carried by its own token, so printing is injective but for the sign of zero; tokens are only required to look like numbers.
- JavaScript values outside JSON: accessors, sparse arrays, symbols, foreign prototypes and the cyclic-object guard of the encoder are folded into values that are not well formed.
- Which error the Thrift preflight raises, and its message: rejection is one outcome.
- Field validators by pattern, credential patterns, byte-size checks of JSON columns, endpoint and URL policy, manifest file lists and training summaries: long lists of independent checks.
- SQL text, advisory locks, isolation levels and connection handling: every catalog call is one atomic step on tables that are maps.
- jsonb normalisation: stored JSON is the value itself, compared by `sameJsonValue`.
- `updated_at` columns, messages of refs, display refs, plain getters.
- `createRecordRevisionV2` and the record schemas are not part of this model: an input is already a revision with a hex digest, or invalid.
- Compare-and-set, deletion and restoration of refs: to the job protocol they are arbitrary writes that respect the foreign keys.
- The details that conflict errors carry: which row is in the way, its status and the reason; a conflict is one outcome.
- Paging queries: `ListRunsProducing` and `ListTransformJobs` are functions of the tables, since they change nothing.
- 64-bit overflow of the lineage sequence: a sequence that long cannot be drawn in practice; the bound on the snapshot parameter is modelled.
- Reading records asynchronously, abort signals, and admission of a transform's working set against a limit.
- Parsing a patch, and reading, splitting, joining and replacing files: a file is a sequence of lines with their ends.
- Metadata of file tokens and the text of their expiry.
- Evaluation runs, the model registry and deployments, HTTP, MCP and CLI surfaces, the web client.
