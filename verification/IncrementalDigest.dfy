/** Logical BLAKE3 hashers over one shared backend, swapped in and out by saving whole states. */
module IncrementalDigests {
  import opened Text

  /** A BLAKE3 instance.  Its state stands for the bytes absorbed since initialization; the digest is
      some fixed function of them. */
  class Backend {
    const blake3: seq<Byte> -> string
    var absorbed: seq<Byte>

    constructor (blake3: seq<Byte> -> string)
      ensures this.blake3 == blake3 && absorbed == []
    {
      this.blake3 := blake3;
      absorbed := [];
    }

    method Load(state: seq<Byte>)
      modifies this
      ensures absorbed == state
    {
      absorbed := state;
    }

    method Absorb(chunk: seq<Byte>)
      modifies this
      ensures absorbed == old(absorbed) + chunk
    {
      absorbed := absorbed + chunk;
    }

    method DigestHex() returns (hex: string)
      ensures hex == blake3(absorbed)
    {
      hex := blake3(absorbed);
    }
  }

  /** `createIncrementalDigest`.  Only `state` survives between calls; the backend may have been used
      by anyone in the meantime. */
  class IncrementalDigest {
    const backend: Backend
    var state: seq<Byte>
    var finalized: bool

    constructor (backend: Backend)
      ensures this.backend == backend && state == [] && !finalized
    {
      this.backend := backend;
      state, finalized := [], false;
    }

    /** Throws once finalized, and then changes nothing. */
    method Update(chunk: seq<Byte>) returns (ok: bool)
      modifies this`state, backend
      ensures ok == !finalized
      ensures state == if ok then old(state) + chunk else old(state)
    {
      if finalized {
        return false;
      }
      backend.Load(state);
      backend.Absorb(chunk);
      state := backend.absorbed;
      ok := true;
    }

    /** Succeeds once. */
    method DigestHex() returns (hex: Option<string>)
      modifies this`finalized, backend
      ensures finalized
      ensures hex == if old(finalized) then None else Some(backend.blake3(state))
    {
      if finalized {
        return None;
      }
      finalized := true;
      backend.Load(state);
      var digest := backend.DigestHex();
      hex := Some(digest);
    }
  }

  // ---- Interleaving ----

  datatype Call = UpdateCall(hasher: nat, chunk: seq<Byte>) | DigestCall(hasher: nat)

  datatype Logical = Logical(state: seq<Byte>, finalized: bool)

  /** What one call does to a hasher that is alone. */
  function Stepped(h: Logical, id: nat, call: Call): Logical {
    if call.hasher != id || h.finalized then h
    else
      match call
      case UpdateCall(_, chunk) => h.(state := h.state + chunk)
      case DigestCall(_) => h.(finalized := true)
  }

  /** What one hasher would hold had it been alone: its own chunks up to its digest. */
  function Alone(h: Logical, id: nat, calls: seq<Call>): Logical {
    if calls == [] then h
    else Stepped(Alone(h, id, calls[..|calls| - 1]), id, calls[|calls| - 1])
  }

  function OwnChunks(id: nat, calls: seq<Call>): seq<Byte> {
    if calls == [] then []
    else
      var last := calls[|calls| - 1];
      OwnChunks(id, calls[..|calls| - 1]) + (if last.UpdateCall? && last.hasher == id then last.chunk else [])
  }

  /** What a digest call answers to a hasher in this state. */
  function DigestOf(blake3: seq<Byte> -> string, h: Logical): Option<string> {
    if h.finalized then None else Some(blake3(h.state))
  }

  /** Distinct hashers over one backend. */
  ghost predicate Sharing(backend: Backend, hashers: seq<IncrementalDigest>) {
    && (forall i | 0 <= i < |hashers| :: hashers[i].backend == backend)
    && (forall i, j | 0 <= i < j < |hashers| :: hashers[i] != hashers[j])
  }

  function States(hashers: seq<IncrementalDigest>): (states: seq<Logical>)
    reads hashers
    ensures |states| == |hashers|
    ensures forall i | 0 <= i < |hashers| :: states[i] == Logical(hashers[i].state, hashers[i].finalized)
  {
    seq(|hashers|, i requires 0 <= i < |hashers| reads hashers => Logical(hashers[i].state, hashers[i].finalized))
  }

  method Perform(backend: Backend, hashers: seq<IncrementalDigest>, call: Call) returns (digest: Option<string>)
    requires Sharing(backend, hashers) && call.hasher < |hashers|
    modifies backend, hashers
    ensures forall i | 0 <= i < |hashers| :: States(hashers)[i] == Stepped(old(States(hashers))[i], i, call)
    ensures digest == if call.DigestCall? then DigestOf(backend.blake3, old(States(hashers))[call.hasher]) else None
  {
    match call {
      case UpdateCall(id, chunk) =>
        var _ := hashers[id].Update(chunk);
        digest := None;
      case DigestCall(id) =>
        digest := hashers[id].DigestHex();
    }
  }

  /** Isolation: however calls to several hashers interleave on their shared backend, each hasher ends, and
      each digest call answers, as if the hasher had been alone. */
  method Interleave(backend: Backend, hashers: seq<IncrementalDigest>, calls: seq<Call>) returns (digests: seq<Option<string>>)
    requires Sharing(backend, hashers) && forall call | call in calls :: call.hasher < |hashers|
    modifies backend, hashers
    ensures forall i | 0 <= i < |hashers| :: States(hashers)[i] == Alone(old(States(hashers))[i], i, calls)
    ensures |digests| == |calls|
    ensures forall k | 0 <= k < |calls| ::
      digests[k] == AloneDigest(backend.blake3, old(States(hashers)), calls, k)
  {
    hide Sharing, AloneDigest, Stepped, DigestOf, States;
    ghost var starts := States(hashers);
    digests := [];
    for k := 0 to |calls|
      invariant |digests| == k
      invariant forall i | 0 <= i < |hashers| :: States(hashers)[i] == Alone(starts[i], i, calls[..k])
      invariant forall m | 0 <= m < k :: digests[m] == AloneDigest(backend.blake3, starts, calls, m)
    {
      ghost var before := States(hashers);
      assert calls[k] in calls;
      var digest := Perform(backend, hashers, calls[k]);
      forall i | 0 <= i < |hashers| ensures States(hashers)[i] == Alone(starts[i], i, calls[..k + 1]) {
        OneMoreCall(starts[i], i, calls, k);
      }
      AnswersAlone(backend.blake3, starts, calls, k);
      digests := digests + [digest];
    }
    assert calls[..|calls|] == calls;
  }

  /** What the k-th call answers if its hasher is alone; updates answer nothing. */
  function AloneDigest(blake3: seq<Byte> -> string, starts: seq<Logical>, calls: seq<Call>, k: nat): Option<string>
    requires k < |calls| && calls[k].hasher < |starts|
  {
    var i := calls[k].hasher;
    if calls[k].DigestCall? then DigestOf(blake3, Alone(starts[i], i, calls[..k])) else None
  }

  lemma AnswersAlone(blake3: seq<Byte> -> string, starts: seq<Logical>, calls: seq<Call>, k: nat)
    requires k < |calls| && calls[k].hasher < |starts|
    ensures var i := calls[k].hasher;
            AloneDigest(blake3, starts, calls, k) ==
            if calls[k].DigestCall? then DigestOf(blake3, Alone(starts[i], i, calls[..k])) else None
  {
  }

  lemma OneMoreCall(h: Logical, id: nat, calls: seq<Call>, k: nat)
    requires k < |calls|
    ensures Alone(h, id, calls[..k + 1]) == Stepped(Alone(h, id, calls[..k]), id, calls[k])
  {
    assert calls[..k + 1][..k] == calls[..k];
  }

  /** A hasher that has not been finalized holds exactly its own chunks, in order. */
  lemma {:induction false} AbsorbsOwnChunks(h: Logical, id: nat, calls: seq<Call>)
    requires !h.finalized && forall call | call in calls :: call != DigestCall(id)
    ensures Alone(h, id, calls) == Logical(h.state + OwnChunks(id, calls), false)
  {
    if calls == [] {
      assert h.state + [] == h.state;
    } else {
      var front, last := calls[..|calls| - 1], calls[|calls| - 1];
      assert last in calls && forall call | call in front :: call in calls;
      AbsorbsOwnChunks(h, id, front);
      var chunk := if last.UpdateCall? && last.hasher == id then last.chunk else [];
      assert (h.state + OwnChunks(id, front)) + chunk == h.state + (OwnChunks(id, front) + chunk);
    }
  }

  /** So a new hasher's first digest is the hash of exactly its own chunks up to that call, whoever else used
      the backend meanwhile; every later digest is refused. */
  lemma {:induction false} FirstDigest(blake3: seq<Byte> -> string, id: nat, calls: seq<Call>, k: nat)
    requires k < |calls| && calls[k] == DigestCall(id)
    ensures DigestOf(blake3, Alone(Logical([], false), id, calls[..k])) ==
            if DigestCall(id) in calls[..k] then None else Some(blake3(OwnChunks(id, calls[..k])))
  {
    var before := calls[..k];
    if DigestCall(id) in before {
      StaysFinalized(Logical([], false), id, before);
    } else {
      AbsorbsOwnChunks(Logical([], false), id, before);
      assert [] + OwnChunks(id, before) == OwnChunks(id, before);
    }
  }

  lemma {:induction false} StaysFinalized(h: Logical, id: nat, calls: seq<Call>)
    requires DigestCall(id) in calls
    ensures Alone(h, id, calls).finalized
  {
    var front := calls[..|calls| - 1];
    if calls[|calls| - 1] != DigestCall(id) {
      assert DigestCall(id) in front;
      StaysFinalized(h, id, front);
    }
  }
}
