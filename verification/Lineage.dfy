/** Record lineage: immutable parent edges, kept acyclic by searching only from the revisions that a
    registration creates. */
module Lineage {
  import opened Text

  datatype Revision = Revision(recordId: string, recordDigest: string)

  /** A revision as a registration names it, with its ordered parents. */
  datatype RecordRevision = RecordRevision(self: Revision, parents: seq<Revision>)

  /** The rows of the edge table, grouped by child and in position order.  Parents need not be located. */
  type Graph = map<Revision, seq<Revision>>

  function ParentsOf(graph: Graph, r: Revision): seq<Revision> {
    if r in graph then graph[r] else []
  }

  predicate Edge(graph: Graph, child: Revision, parent: Revision) {
    parent in ParentsOf(graph, child)
  }

  ghost predicate IsPath(graph: Graph, path: seq<Revision>) {
    |path| >= 2 && forall i | 0 <= i < |path| - 1 :: Edge(graph, path[i], path[i + 1])
  }

  ghost predicate Connects(graph: Graph, path: seq<Revision>, from: Revision, to: Revision) {
    IsPath(graph, path) && path[0] == from && path[|path| - 1] == to
  }

  ghost predicate Reaches(graph: Graph, from: Revision, to: Revision) {
    exists path :: Connects(graph, path, from, to)
  }

  ghost predicate Acyclic(graph: Graph) {
    forall r :: !Reaches(graph, r, r)
  }

  lemma CyclesRefuteAcyclic(graph: Graph)
    ensures Acyclic(graph) <==> forall r :: !Reaches(graph, r, r)
  {
  }

  // ---- The closure search ----

  datatype Ancestor = Ancestor(origin: Revision, node: Revision)

  function ParentSet(graph: Graph): set<Revision> {
    set child, parent | child in graph && parent in graph[child] :: parent
  }

  function Universe(graph: Graph, origins: set<Revision>): set<Ancestor> {
    set origin, node | origin in origins && node in ParentSet(graph) :: Ancestor(origin, node)
  }

  /** The seed of the recursive query. */
  function Seed(graph: Graph, origins: set<Revision>): set<Ancestor> {
    set origin, parent | origin in origins && parent in ParentsOf(graph, origin) :: Ancestor(origin, parent)
  }

  /** One join of the recursive query. */
  function Join(graph: Graph, ancestors: set<Ancestor>): set<Ancestor> {
    set a, parent | a in ancestors && parent in ParentsOf(graph, a.node) :: Ancestor(a.origin, parent)
  }

  ghost predicate Sound(graph: Graph, ancestors: set<Ancestor>) {
    forall a | a in ancestors :: Reaches(graph, a.origin, a.node)
  }

  lemma EdgeReaches(graph: Graph, child: Revision, parent: Revision)
    requires Edge(graph, child, parent)
    ensures Reaches(graph, child, parent)
  {
    assert Connects(graph, [child, parent], child, parent);
  }

  lemma ReachesFurther(graph: Graph, from: Revision, via: Revision, to: Revision)
    requires Reaches(graph, from, via) && Edge(graph, via, to)
    ensures Reaches(graph, from, to)
  {
    var path :| Connects(graph, path, from, via);
    assert Connects(graph, path + [to], from, to);
  }

  lemma SeedIsSound(graph: Graph, origins: set<Revision>)
    ensures Sound(graph, Seed(graph, origins)) && Seed(graph, origins) <= Universe(graph, origins)
  {
    forall a | a in Seed(graph, origins) ensures Reaches(graph, a.origin, a.node) {
      EdgeReaches(graph, a.origin, a.node);
    }
  }

  lemma JoinIsSound(graph: Graph, origins: set<Revision>, ancestors: set<Ancestor>)
    requires Sound(graph, ancestors) && ancestors <= Universe(graph, origins)
    ensures Sound(graph, Join(graph, ancestors)) && Join(graph, ancestors) <= Universe(graph, origins)
  {
    forall b | b in Join(graph, ancestors) ensures Reaches(graph, b.origin, b.node) {
      var a :| a in ancestors && b.node in ParentsOf(graph, a.node) && a.origin == b.origin;
      ReachesFurther(graph, a.origin, a.node, b.node);
    }
  }

  /** A set that contains the seed and is closed under joining contains every ancestor. */
  lemma {:induction false} ClosedIsComplete(graph: Graph, origins: set<Revision>, found: set<Ancestor>,
                                            path: seq<Revision>)
    requires Seed(graph, origins) <= found && Join(graph, found) <= found
    requires IsPath(graph, path) && path[0] in origins
    ensures Ancestor(path[0], path[|path| - 1]) in found
    decreases |path|
  {
    var n := |path|;
    assert Edge(graph, path[n - 2], path[n - 1]);
    if n == 2 {
      assert Ancestor(path[0], path[1]) in Seed(graph, origins);
    } else {
      ClosedIsComplete(graph, origins, found, path[..n - 1]);
      assert path[..n - 1][n - 2] == path[n - 2];
      assert Ancestor(path[0], path[n - 1]) in Join(graph, found);
    }
  }

  lemma CycleIsFound(graph: Graph, origins: set<Revision>, found: set<Ancestor>, origin: Revision)
    requires Seed(graph, origins) <= found && Join(graph, found) <= found
    requires origin in origins && Reaches(graph, origin, origin)
    ensures Ancestor(origin, origin) in found
  {
    var path :| Connects(graph, path, origin, origin);
    ClosedIsComplete(graph, origins, found, path);
  }

  /** What every round of the search keeps: sound pairs, closed except for the working ones. */
  ghost predicate Searching(graph: Graph, origins: set<Revision>, ancestors: set<Ancestor>, working: set<Ancestor>) {
    && Seed(graph, origins) <= ancestors <= Universe(graph, origins)
    && working <= ancestors
    && Join(graph, ancestors - working) <= ancestors
    && Sound(graph, ancestors)
  }

  lemma SearchStarts(graph: Graph, origins: set<Revision>)
    ensures Searching(graph, origins, Seed(graph, origins), Seed(graph, origins))
  {
    SeedIsSound(graph, origins);
    var seed := Seed(graph, origins);
    assert seed - seed == {};
    NothingJoins(graph);
  }

  lemma SearchAdvances(graph: Graph, origins: set<Revision>, ancestors: set<Ancestor>, working: set<Ancestor>)
    requires Searching(graph, origins, ancestors, working)
    ensures var discovered := Join(graph, working) - ancestors;
            && Searching(graph, origins, ancestors + discovered, discovered)
            && |Universe(graph, origins) - (ancestors + discovered)|
               == |Universe(graph, origins) - ancestors| - |discovered|
  {
    hide Seed, Join, Universe, Reaches;
    var discovered := Join(graph, working) - ancestors;
    JoinIsSound(graph, origins, working);
    JoinSplits(graph, ancestors, working);
    FewerLeft(Universe(graph, origins), ancestors, discovered);
    assert ancestors + discovered - discovered == ancestors;
  }

  lemma SearchEnds(graph: Graph, origins: set<Revision>, ancestors: set<Ancestor>, origin: Revision)
    requires Searching(graph, origins, ancestors, {}) && origin in origins
    ensures Ancestor(origin, origin) in ancestors <==> Reaches(graph, origin, origin)
  {
    assert ancestors - {} == ancestors;
    if Reaches(graph, origin, origin) {
      CycleIsFound(graph, origins, ancestors, origin);
    }
  }

  /** The recursive query: a worklist fixpoint over (origin, ancestor) pairs.  It finds an origin on a
      cycle exactly when there is one. */
  method SearchCycle(graph: Graph, origins: set<Revision>) returns (found: Option<Revision>)
    ensures found.Some? ==> found.value in origins && Reaches(graph, found.value, found.value)
    ensures found.None? ==> forall origin | origin in origins :: !Reaches(graph, origin, origin)
  {
    var ancestors := Seed(graph, origins);
    var working := ancestors;
    SearchStarts(graph, origins);
    hide Searching, Join, Reaches;
    while working != {}
      invariant Searching(graph, origins, ancestors, working)
      decreases |Universe(graph, origins) - ancestors|, |working|
    {
      SearchAdvances(graph, origins, ancestors, working);
      working := Join(graph, working) - ancestors;
      ancestors := ancestors + working;
    }
    found := FirstCycle(origins, ancestors);
    forall origin | origin in origins ensures Ancestor(origin, origin) in ancestors <==> Reaches(graph, origin, origin) {
      SearchEnds(graph, origins, ancestors, origin);
    }
  }

  /** The outer SELECT: some origin that is its own ancestor. */
  method FirstCycle(origins: set<Revision>, ancestors: set<Ancestor>) returns (found: Option<Revision>)
    ensures found.Some? ==> found.value in origins && Ancestor(found.value, found.value) in ancestors
    ensures found.None? ==> forall origin | origin in origins :: Ancestor(origin, origin) !in ancestors
  {
    var cycles := set origin | origin in origins && Ancestor(origin, origin) in ancestors;
    if cycles == {} {
      assert forall origin | origin in origins :: Ancestor(origin, origin) in ancestors ==> origin in cycles;
      found := None;
    } else {
      var origin :| origin in cycles;
      found := Some(origin);
    }
  }

  lemma NothingJoins(graph: Graph)
    ensures Join(graph, {}) == {}
  {
  }

  lemma JoinSplits(graph: Graph, ancestors: set<Ancestor>, working: set<Ancestor>)
    requires working <= ancestors && Join(graph, ancestors - working) <= ancestors
    ensures Join(graph, ancestors) <= ancestors + Join(graph, working)
  {
    forall b | b in Join(graph, ancestors) ensures b in ancestors + Join(graph, working) {
      var a :| a in ancestors && b.node in ParentsOf(graph, a.node) && a.origin == b.origin;
      if a !in working {
        assert b in Join(graph, ancestors - working);
      }
    }
  }

  lemma FewerLeft<T>(universe: set<T>, ancestors: set<T>, more: set<T>)
    requires ancestors <= universe && more <= universe && more !! ancestors
    ensures |universe - (ancestors + more)| == |universe - ancestors| - |more|
  {
    assert universe - ancestors == (universe - (ancestors + more)) + more;
  }

  // ---- Registration ----

  ghost predicate DistinctIds(revisions: seq<Revision>) {
    forall i, j | 0 <= i < j < |revisions| :: revisions[i].recordId != revisions[j].recordId
  }

  function Selves(revisions: seq<RecordRevision>): (selves: seq<Revision>)
    ensures |selves| == |revisions| && forall i | 0 <= i < |revisions| :: selves[i] == revisions[i].self
  {
    seq(|revisions|, i requires 0 <= i < |revisions| => revisions[i].self)
  }

  /** No two revisions of one record; no parent of the record itself, and no two of one record. */
  ghost predicate ValidRevisions(revisions: seq<RecordRevision>) {
    && DistinctIds(Selves(revisions))
    && forall r | r in revisions ::
         DistinctIds(r.parents) && forall parent | parent in r.parents :: parent.recordId != r.self.recordId
  }

  /** The loops of `validateRegistrationInput` over the revisions. */
  method ValidateRevisions(revisions: seq<RecordRevision>) returns (ok: bool)
    ensures ok <==> ValidRevisions(revisions)
  {
    var childIds: set<string> := {};
    for i := 0 to |revisions|
      invariant childIds == set j | 0 <= j < i :: revisions[j].self.recordId
      invariant ValidRevisions(revisions[..i])
    {
      var revision := revisions[i];
      assert revisions[..i + 1] == revisions[..i] + [revision];
      if revision.self.recordId in childIds {
        assert Selves(revisions)[i] == revision.self;
        return false;
      }
      childIds := childIds + {revision.self.recordId};
      ok := ValidateParents(revision);
      if !ok {
        return;
      }
    }
    assert revisions[..|revisions|] == revisions;
    ok := true;
  }

  method ValidateParents(revision: RecordRevision) returns (ok: bool)
    ensures ok <==> DistinctIds(revision.parents) &&
                    forall parent | parent in revision.parents :: parent.recordId != revision.self.recordId
  {
    var parentIds: set<string> := {};
    for k := 0 to |revision.parents|
      invariant parentIds == set j | 0 <= j < k :: revision.parents[j].recordId
      invariant DistinctIds(revision.parents[..k])
      invariant forall j | 0 <= j < k :: revision.parents[j].recordId != revision.self.recordId
    {
      var parent := revision.parents[k];
      if parent.recordId == revision.self.recordId || parent.recordId in parentIds {
        return false;
      }
      parentIds := parentIds + {parent.recordId};
    }
    ok := true;
  }

  function CreatedBy(located: map<Revision, string>, revisions: seq<RecordRevision>): set<Revision> {
    set r | r in revisions && r.self !in located :: r.self
  }

  /** First writer only: a located revision keeps its dataset. */
  function Located(located: map<Revision, string>, datasetVersion: string, revisions: seq<RecordRevision>)
    : map<Revision, string>
  {
    located + map self | self in CreatedBy(located, revisions) :: datasetVersion
  }

  /** The edges of the created revisions are added; no other child gains any. */
  ghost predicate Extends(graph: Graph, created: set<Revision>, revisions: seq<RecordRevision>, more: Graph) {
    && (forall child | child !in created :: ParentsOf(more, child) == ParentsOf(graph, child))
    && (forall r | r in revisions && r.self in created :: ParentsOf(more, r.self) == r.parents)
  }

  lemma BatchesAddUp(located: map<Revision, string>, datasetVersion: string, a: seq<RecordRevision>, b: seq<RecordRevision>)
    ensures var after := Located(located, datasetVersion, a);
            && CreatedBy(located, a) + CreatedBy(after, b) == CreatedBy(located, a + b)
            && Located(after, datasetVersion, b) == Located(located, datasetVersion, a + b)
  {
    var after := Located(located, datasetVersion, a);
    assert CreatedBy(located, a) + CreatedBy(after, b) == CreatedBy(located, a + b);
    hide CreatedBy;
    assert Located(after, datasetVersion, b) == Located(located, datasetVersion, a + b);
  }

  lemma BatchOfOne(located: map<Revision, string>, datasetVersion: string, r: RecordRevision)
    ensures CreatedBy(located, [r]) == if r.self in located then {} else {r.self}
    ensures Located(located, datasetVersion, [r]) == if r.self in located then located else located[r.self := datasetVersion]
  {
    assert CreatedBy(located, [r]) == if r.self in located then {} else {r.self};
  }

  datatype Store = Store(located: map<Revision, string>, edges: Graph)

  /** Children of edges are located, which the foreign key demands, and no revision is its own ancestor. */
  ghost predicate Sane(store: Store) {
    store.edges.Keys <= store.located.Keys && Acyclic(store.edges)
  }

  function Graft(graph: Graph, created: set<Revision>, revisions: seq<RecordRevision>): Graph {
    if revisions == [] then graph
    else
      var r := revisions[|revisions| - 1];
      var rest := Graft(graph, created, revisions[..|revisions| - 1]);
      if r.self in created && r.parents != [] then rest[r.self := r.parents] else rest
  }

  function Committed(store: Store, datasetVersion: string, revisions: seq<RecordRevision>): Store {
    Store(Located(store.located, datasetVersion, revisions),
          Graft(store.edges, CreatedBy(store.located, revisions), revisions))
  }

  lemma {:induction false} GraftExtends(graph: Graph, created: set<Revision>, revisions: seq<RecordRevision>)
    requires DistinctIds(Selves(revisions)) && created !! graph.Keys
    ensures Graft(graph, created, revisions).Keys <= graph.Keys + created
    ensures forall child | child !in created || child !in Selves(revisions) ::
              ParentsOf(Graft(graph, created, revisions), child) == ParentsOf(graph, child)
    ensures Extends(graph, created, revisions, Graft(graph, created, revisions))
  {
    if revisions != [] {
      var n := |revisions| - 1;
      var front, r := revisions[..n], revisions[n];
      assert Selves(front) == Selves(revisions)[..n];
      assert forall i | 0 <= i < n :: Selves(revisions)[i].recordId != Selves(revisions)[n].recordId;
      GraftExtends(graph, created, front);
      assert revisions == front + [r];
      GraftOne(graph, created, front, r);
    }
  }

  lemma GraftOne(graph: Graph, created: set<Revision>, front: seq<RecordRevision>, r: RecordRevision)
    requires created !! graph.Keys && r.self !in Selves(front)
    requires var rest := Graft(graph, created, front);
             && rest.Keys <= graph.Keys + created
             && (forall child | child !in created || child !in Selves(front) ::
                   ParentsOf(rest, child) == ParentsOf(graph, child))
             && Extends(graph, created, front, rest)
    ensures var more := Graft(graph, created, front + [r]);
            && more.Keys <= graph.Keys + created
            && (forall child | child !in created || child !in Selves(front + [r]) ::
                  ParentsOf(more, child) == ParentsOf(graph, child))
            && Extends(graph, created, front + [r], more)
  {
    var revisions := front + [r];
    assert revisions[..|front|] == front && revisions[|revisions| - 1] == r;
    var rest, more := Graft(graph, created, front), Graft(graph, created, revisions);
    assert more == if r.self in created && r.parents != [] then rest[r.self := r.parents] else rest;
    hide Graft;
    assert ParentsOf(rest, r.self) == ParentsOf(graph, r.self);
    assert ParentsOf(more, r.self) == if r.self in created then r.parents else ParentsOf(graph, r.self);
    assert forall child | child != r.self :: ParentsOf(more, child) == ParentsOf(rest, child);
    assert more.Keys <= graph.Keys + created;
    hide ParentsOf;
    assert Selves(revisions) == Selves(front) + [r.self];
    forall q | q in front + [r] && q.self in created ensures ParentsOf(more, q.self) == q.parents {
      if q in front {
        var i :| 0 <= i < |front| && front[i] == q;
        assert Selves(front)[i] == q.self;
      }
    }
  }

  // ---- Why searching from the created revisions is enough ----

  lemma CycleThrough(graph: Graph, path: seq<Revision>, i: nat)
    requires IsPath(graph, path) && path[0] == path[|path| - 1] && i < |path| - 1
    ensures Reaches(graph, path[i], path[i])
  {
    var turned := path[i..] + path[1..i + 1];
    forall k | 0 <= k < |turned| - 1 ensures Edge(graph, turned[k], turned[k + 1]) {
      var j := if i + k < |path| - 1 then i + k else i + k - |path| + 1;
      assert Edge(graph, path[j], path[j + 1]);
    }
    assert Connects(graph, turned, path[i], path[i]);
  }

  /** A cycle of the extended graph either lies in the old graph or passes through a created revision
      that has parents. */
  lemma NewCyclesPassThroughCreated(graph: Graph, created: set<Revision>, more: Graph)
    requires forall child | child !in created :: ParentsOf(more, child) == ParentsOf(graph, child)
    requires Acyclic(graph) && !Acyclic(more)
    ensures exists r :: r in created && ParentsOf(more, r) != [] && Reaches(more, r, r)
  {
    var r :| Reaches(more, r, r);
    var path :| Connects(more, path, r, r);
    if i :| 0 <= i < |path| - 1 && path[i] in created {
      CycleThrough(more, path, i);
      assert Edge(more, path[i], path[i + 1]);
    } else {
      OldPath(graph, created, more, path);
      assert false;
    }
  }

  lemma OldPath(graph: Graph, created: set<Revision>, more: Graph, path: seq<Revision>)
    requires forall child | child !in created :: ParentsOf(more, child) == ParentsOf(graph, child)
    requires IsPath(more, path) && forall i | 0 <= i < |path| - 1 :: path[i] !in created
    ensures Reaches(graph, path[0], path[|path| - 1])
  {
    forall i | 0 <= i < |path| - 1 ensures Edge(graph, path[i], path[i + 1]) {
      assert Edge(more, path[i], path[i + 1]) && path[i] !in created;
    }
    assert Connects(graph, path, path[0], path[|path| - 1]);
  }

  /** What a registration needs besides valid input: every revision that is already located has exactly
      the parents it had, and the new edges close no cycle. */
  ghost predicate Registrable(store: Store, revisions: seq<RecordRevision>) {
    && (forall r | r in revisions && r.self in store.located :: ParentsOf(store.edges, r.self) == r.parents)
    && Acyclic(Graft(store.edges, CreatedBy(store.located, revisions), revisions))
  }

  const REGISTRATION_BATCH_SIZE := 1000

  function BatchEnd(offset: nat, length: nat): (end: nat)
    ensures offset < length ==> offset < end <= length
  {
    if offset + REGISTRATION_BATCH_SIZE < length then offset + REGISTRATION_BATCH_SIZE else length
  }

  datatype Outcome = Registered | ParentsConflict(child: Revision) | LineageCycle(child: Revision)

  /** The two lineage tables. */
  class LineageTables {
    var located: map<Revision, string>
    var edges: Graph

    function Contents(): Store
      reads this
    {
      Store(located, edges)
    }

    constructor ()
      ensures Contents() == Store(map[], map[]) && Sane(Contents())
    {
      located, edges := map[], map[];
      new;
      NoEdgesNoCycle();
    }

    /** One INSERT that skips the revisions already located and returns the others. */
    method InsertLocations(datasetVersion: string, batch: seq<RecordRevision>) returns (created: set<Revision>)
      modifies this`located
      ensures created == CreatedBy(old(located), batch)
      ensures located == Located(old(located), datasetVersion, batch)
    {
      created := {};
      for i := 0 to |batch|
        invariant created == CreatedBy(old(located), batch[..i])
        invariant located == Located(old(located), datasetVersion, batch[..i])
      {
        assert batch[..i + 1] == batch[..i] + [batch[i]];
        BatchesAddUp(old(located), datasetVersion, batch[..i], [batch[i]]);
        BatchOfOne(located, datasetVersion, batch[i]);
        hide CreatedBy, Located;
        if batch[i].self !in located {
          located := located[batch[i].self := datasetVersion];
          created := created + {batch[i].self};
        }
      }
      assert batch[..|batch|] == batch;
    }

    method InsertRevisions(datasetVersion: string, revisions: seq<RecordRevision>) returns (created: set<Revision>)
      modifies this`located
      ensures created == CreatedBy(old(located), revisions)
      ensures located == Located(old(located), datasetVersion, revisions)
    {
      created := {};
      var offset := 0;
      while offset < |revisions|
        invariant offset <= |revisions|
        invariant created == CreatedBy(old(located), revisions[..offset])
        invariant located == Located(old(located), datasetVersion, revisions[..offset])
      {
        var end := BatchEnd(offset, |revisions|);
        assert revisions[..end] == revisions[..offset] + revisions[offset..end];
        BatchesAddUp(old(located), datasetVersion, revisions[..offset], revisions[offset..end]);
        hide CreatedBy, Located;
        var returned := InsertLocations(datasetVersion, revisions[offset..end]);
        created := created + returned;
        offset := end;
      }
      assert revisions[..|revisions|] == revisions;
    }

    method InsertEdges(created: set<Revision>, revisions: seq<RecordRevision>)
      modifies this`edges
      ensures edges == Graft(old(edges), created, revisions)
    {
      for i := 0 to |revisions|
        invariant edges == Graft(old(edges), created, revisions[..i])
      {
        var revision := revisions[i];
        assert revisions[..i + 1][..i] == revisions[..i];
        if revision.self in created && revision.parents != [] {
          edges := edges[revision.self := revision.parents];
        }
      }
      assert revisions[..|revisions|] == revisions;
    }

    /** Compares the stored parents of every revision, created or not, with the expected ones. */
    method FindParentsConflict(revisions: seq<RecordRevision>) returns (conflict: Option<Revision>)
      ensures conflict.None? ==> forall r | r in revisions :: ParentsOf(edges, r.self) == r.parents
      ensures conflict.Some? ==>
        exists r :: r in revisions && r.self == conflict.value && ParentsOf(edges, r.self) != r.parents
    {
      for i := 0 to |revisions|
        invariant forall j | 0 <= j < i :: ParentsOf(edges, revisions[j].self) == revisions[j].parents
      {
        if ParentsOf(edges, revisions[i].self) != revisions[i].parents {
          assert revisions[i] in revisions;
          return Some(revisions[i].self);
        }
      }
      conflict := None;
    }

    method FindCycle(created: set<Revision>, revisions: seq<RecordRevision>) returns (found: Option<Revision>)
      ensures found.Some? ==> found.value in created && Reaches(edges, found.value, found.value)
      ensures found.None? ==>
        forall r | r in revisions && r.parents != [] && r.self in created :: !Reaches(edges, r.self, r.self)
    {
      var cycleOrigins: seq<Revision> := [];
      for i := 0 to |revisions|
        invariant forall origin | origin in cycleOrigins :: origin in created
        invariant forall j | 0 <= j < i && revisions[j].parents != [] && revisions[j].self in created ::
          revisions[j].self in cycleOrigins
      {
        if revisions[i].parents != [] && revisions[i].self in created {
          cycleOrigins := cycleOrigins + [revisions[i].self];
        }
      }
      var offset := 0;
      while offset < |cycleOrigins|
        invariant offset <= |cycleOrigins|
        invariant forall j | 0 <= j < offset :: !Reaches(edges, cycleOrigins[j], cycleOrigins[j])
      {
        var end := BatchEnd(offset, |cycleOrigins|);
        var batch := cycleOrigins[offset..end];
        found := SearchCycle(edges, set origin | origin in batch);
        if found.Some? {
          return;
        }
        forall j | offset <= j < end ensures !Reaches(edges, cycleOrigins[j], cycleOrigins[j]) {
          assert cycleOrigins[j] == batch[j - offset];
          assert cycleOrigins[j] in batch;
        }
        offset := end;
      }
      found := None;
    }

    /** `ensureRecordRevisions`.  A thrown conflict leaves the inserts for the transaction to undo. */
    method EnsureRecordRevisions(datasetVersion: string, revisions: seq<RecordRevision>) returns (outcome: Outcome)
      requires Sane(Contents()) && ValidRevisions(revisions)
      modifies this
      ensures Contents() == Committed(old(Contents()), datasetVersion, revisions)
      ensures outcome.Registered? <==> Registrable(old(Contents()), revisions)
      ensures outcome.ParentsConflict? ==>
        exists r :: r in revisions && r.self == outcome.child && r.self in old(located) &&
          ParentsOf(old(edges), r.self) != r.parents
      ensures outcome.LineageCycle? ==> Reaches(edges, outcome.child, outcome.child) && outcome.child !in old(located)
    {
      hide Graft, Acyclic, Located, DistinctIds;
      ghost var before := Contents();
      var created := InsertRevisions(datasetVersion, revisions);
      assert created !! edges.Keys;
      GraftExtends(edges, created, revisions);
      InsertEdges(created, revisions);
      var conflict := FindParentsConflict(revisions);
      if conflict.Some? {
        return ParentsConflict(conflict.value);
      }
      CyclesRefuteAcyclic(edges);
      var cycle := FindCycle(created, revisions);
      if cycle.Some? {
        return LineageCycle(cycle.value);
      }
      if !Acyclic(edges) {
        NewCyclesPassThroughCreated(before.edges, created, edges);
      }
      outcome := Registered;
    }
  }

  lemma NoEdgesNoCycle()
    ensures Acyclic(map[])
  {
    forall path ensures !IsPath(map[], path) {
      if |path| >= 2 {
        assert !Edge(map[], path[0], path[1]);
      }
    }
  }
}
