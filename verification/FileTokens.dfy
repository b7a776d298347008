/** The registry of one-time file tokens. */
module FileTokens {
  import opened Text

  const MAX_SAFE_INTEGER := 9007199254740991

  datatype Kind = Process | Export

  datatype Error = BadInput | CapacityExceeded | InvalidArgument | Collided

  datatype Result<+T> = Ok(value: T) | Throws(error: Error)

  predicate SafeTime(n: int) {
    0 <= n <= MAX_SAFE_INTEGER
  }

  function HexChar(d: int): char
    requires 0 <= d < 16
  {
    if d < 10 then Digit(d) else ('a' as int + d - 10) as char
  }

  function Hex(bytes: seq<Byte>): string {
    if bytes == [] then [] else [HexChar(bytes[0] / 16), HexChar(bytes[0] % 16)] + Hex(bytes[1..])
  }

  function Candidate(kind: Kind, bytes: seq<Byte>): string {
    (if kind.Process? then "proc_" else "exp_") + Hex(bytes)
  }

  class TokenEntry {
    const token: string
    const kind: Kind
    const expiresAt: int
    var active: bool

    constructor (token: string, kind: Kind, expiresAt: int)
      ensures this.token == token && this.kind == kind && this.expiresAt == expiresAt && !active
    {
      this.token, this.kind, this.expiresAt, active := token, kind, expiresAt, false;
    }
  }

  /** The first free candidate of up to eight draws; a draw of another length ends the search. */
  function FirstFree(kind: Kind, draws: seq<seq<Byte>>, taken: set<string>): Result<string> {
    if draws == [] then Throws(Collided)
    else if |draws[0]| != 32 then Throws(InvalidArgument)
    else if Candidate(kind, draws[0]) !in taken then Ok(Candidate(kind, draws[0]))
    else FirstFree(kind, draws[1..], taken)
  }

  /** A token is its kind's prefix and the lower-case hexadecimal digits of its bytes, high digit first. */
  lemma {:induction false} HexDigitsAre(bytes: seq<Byte>, i: nat)
    requires i < |bytes|
    ensures |Hex(bytes)| == 2 * |bytes|
    ensures Hex(bytes)[2 * i] == "0123456789abcdef"[bytes[i] / 16] && Hex(bytes)[2 * i + 1] == "0123456789abcdef"[bytes[i] % 16]
  {
    HexCharsAre(bytes[0] / 16);
    HexCharsAre(bytes[0] % 16);
    if |bytes| > 1 {
      HexDigitsAre(bytes[1..], if i > 0 then i - 1 else 0);
    } else {
      assert bytes[1..] == [];
    }
  }

  lemma HexCharsAre(d: int)
    requires 0 <= d < 16
    ensures HexChar(d) == "0123456789abcdef"[d]
  {
  }

  /** Tokens are equal only if kind and bytes are. */
  lemma TokensAreDistinct(a: Kind, x: seq<Byte>, b: Kind, y: seq<Byte>)
    requires Candidate(a, x) == Candidate(b, y)
    ensures a == b && x == y
  {
    var s := Candidate(a, x);
    assert s == Candidate(b, y);
    assert s[0] == if a.Process? then 'p' else 'e';
    assert s[0] == if b.Process? then 'p' else 'e';
    assert Hex(x) == s[if a.Process? then 5 else 4..];
    assert Hex(y) == s[if a.Process? then 5 else 4..];
    HexIsInjective(x, y);
  }

  lemma {:induction false} HexIsInjective(x: seq<Byte>, y: seq<Byte>)
    requires Hex(x) == Hex(y)
    ensures x == y
  {
    if x != [] && y != [] {
      assert Hex(x)[0] == HexChar(x[0] / 16) && Hex(x)[1] == HexChar(x[0] % 16) && Hex(x)[2..] == Hex(x[1..]);
      assert Hex(y)[0] == HexChar(y[0] / 16) && Hex(y)[1] == HexChar(y[0] % 16) && Hex(y)[2..] == Hex(y[1..]);
      HexCharIsInjective(x[0] / 16, y[0] / 16);
      HexCharIsInjective(x[0] % 16, y[0] % 16);
      HexIsInjective(x[1..], y[1..]);
      assert x == [x[0]] + x[1..] && y == [y[0]] + y[1..];
    }
  }

  lemma HexCharIsInjective(c: int, d: int)
    requires 0 <= c < 16 && 0 <= d < 16 && HexChar(c) == HexChar(d)
    ensures c == d
  {
  }

  /** A token is drawn exactly by the first draw that is free, if no draw before it has the wrong length. */
  lemma {:induction false} FirstFreeMeans(kind: Kind, draws: seq<seq<Byte>>, taken: set<string>, i: nat)
    requires i < |draws| && forall j | 0 <= j < i :: |draws[j]| == 32 && Candidate(kind, draws[j]) in taken
    ensures |draws[i]| != 32 ==> FirstFree(kind, draws, taken) == Throws(InvalidArgument)
    ensures |draws[i]| == 32 && Candidate(kind, draws[i]) !in taken ==> FirstFree(kind, draws, taken) == Ok(Candidate(kind, draws[i]))
    ensures |draws[i]| == 32 && Candidate(kind, draws[i]) in taken && i == |draws| - 1 ==> FirstFree(kind, draws, taken) == Throws(Collided)
  {
    hide Candidate;
    if i > 0 {
      FirstFreeMeans(kind, draws[1..], taken, i - 1);
    }
  }

  datatype Begun = Busy | Started(handle: Handle)

  class McpFileTokenRegistry {
    const maxEntries: int
    const maxActive: int
    const ttl: int
    var entries: map<string, TokenEntry>
    var activeCount: int
    // Every entry that was ever begun, and the handles that are not finished.
    ghost var begun: set<TokenEntry>
    ghost var open: set<Handle>

    ghost function ActiveTokens(): set<string>
      reads this`entries, entries.Values
    {
      set token | token in entries && entries[token].active
    }

    /** The entries are filed under their own tokens, and the active ones are those begun. */
    ghost predicate EntriesOk()
      reads this`entries, this`begun, entries.Values
    {
      && |entries| <= maxEntries
      && (forall token | token in entries :: entries[token].token == token)
      && (forall token | token in entries :: entries[token].active <==> entries[token] in begun)
    }

    /** The counter is the number of active entries, within its limit. */
    ghost predicate CountOk()
      reads this`entries, this`activeCount, entries.Values
    {
      activeCount == |ActiveTokens()| <= maxActive
    }

    /** Every unfinished handle holds an entry of its own that is still filed. */
    ghost predicate HandlesOk()
      reads this`entries, this`begun, this`open, open
    {
      && (forall h | h in open :: !h.finished && h.registry == this && h.entry in begun &&
                                  h.entry.token in entries && entries[h.entry.token] == h.entry)
      && (forall h, k | h in open && k in open && h.entry == k.entry :: h == k)
    }

    ghost predicate Valid()
      reads this, entries.Values, open
    {
      maxEntries > 0 && maxActive > 0 && ttl > 0 && EntriesOk() && CountOk() && HandlesOk()
    }

    constructor (maxEntries: int, maxActive: int, ttl: int)
      requires maxEntries > 0 && maxActive > 0 && ttl > 0
      ensures Valid() && entries == map[] && activeCount == 0 && open == {} && begun == {}
      ensures this.maxEntries == maxEntries && this.maxActive == maxActive && this.ttl == ttl
    {
      this.maxEntries, this.maxActive, this.ttl := maxEntries, maxActive, ttl;
      entries, activeCount, begun, open := map[], 0, {}, {};
    }

    predicate Stale(entry: TokenEntry, now: int)
      reads entry
    {
      !entry.active && entry.expiresAt <= now
    }

    ghost function Swept(now: int): map<string, TokenEntry>
      reads this`entries, entries.Values
    {
      map token | token in entries && !Stale(entries[token], now) :: entries[token]
    }

    /** A sweep drops the entries whose time is up, unless they are being used. */
    lemma SweptAre(now: int, token: string)
      ensures token in Swept(now) <==> token in entries && (entries[token].active || now < entries[token].expiresAt)
      ensures token in Swept(now) ==> Swept(now)[token] == entries[token]
    {
    }

    method SweepExpiredReady(now: int)
      requires Valid()
      modifies this`entries
      ensures entries == old(Swept(now))
      ensures Valid()
    {
      var pending := entries.Keys;
      while pending != {}
        invariant Valid() && pending <= old(entries).Keys
        invariant forall token | token in entries :: token in old(entries) && entries[token] == old(entries)[token]
        invariant forall token | token in old(entries) ::
          token in entries <==> token in pending || !Stale(old(entries)[token], now)
        decreases |pending|
      {
        hide EntriesOk, CountOk, HandlesOk;
        var token :| token in pending;
        pending := pending - {token};
        if token in entries && Stale(entries[token], now) {
          Discard(token);
        }
      }
      assert entries.Keys == old(Swept(now)).Keys;
    }

    /** Sweeps, then adds a fresh ready entry under the first free token. */
    method Prepare(kind: Kind, now: int, draws: seq<seq<Byte>>) returns (r: Result<string>)
      requires Valid() && |draws| == 8
      modifies this`entries
      ensures Valid()
      ensures !SafeTime(now) ==> r == Throws(InvalidArgument) && entries == old(entries)
      ensures SafeTime(now) ==>
        r == (if |old(Swept(now))| >= maxEntries then Throws(CapacityExceeded)
              else
                match FirstFree(kind, draws, old(Swept(now)).Keys)
                case Throws(error) => Throws(error)
                case Ok(token) => if SafeTime(now + ttl) then Ok(token) else Throws(InvalidArgument))
      ensures SafeTime(now) && r.Throws? ==> entries == old(Swept(now))
      ensures r.Ok? ==>
        && r.value !in old(Swept(now)) && r.value in entries && entries == old(Swept(now))[r.value := entries[r.value]]
        && fresh(entries[r.value]) && !entries[r.value].active && entries[r.value].kind == kind
        && entries[r.value].expiresAt == now + ttl
    {
      if !SafeTime(now) {
        return Throws(InvalidArgument);
      }
      SweepExpiredReady(now);
      if |entries| >= maxEntries {
        return Throws(CapacityExceeded);
      }
      r := DrawToken(kind, draws);
      if r.Throws? {
        return;
      }
      if !SafeTime(now + ttl) {
        return Throws(InvalidArgument);
      }
      Add(r.value, kind, now + ttl);
    }

    method DrawToken(kind: Kind, draws: seq<seq<Byte>>) returns (r: Result<string>)
      requires |draws| == 8
      ensures r == FirstFree(kind, draws, entries.Keys)
      ensures r.Ok? ==> r.value !in entries
    {
      hide Candidate;
      assert draws[0..] == draws;
      for attempt := 0 to 8
        invariant FirstFree(kind, draws, entries.Keys) == FirstFree(kind, draws[attempt..], entries.Keys)
      {
        var bytes := draws[attempt];
        assert draws[attempt..][1..] == draws[attempt + 1..];
        if |bytes| != 32 {
          return Throws(InvalidArgument);
        }
        var candidate := Candidate(kind, bytes);
        if candidate !in entries {
          return Ok(candidate);
        }
      }
      r := Throws(Collided);
    }

    method Add(token: string, kind: Kind, expiresAt: int)
      requires Valid() && token !in entries && |entries| < maxEntries
      modifies this`entries
      ensures Valid()
      ensures token in entries && entries == old(entries)[token := entries[token]]
      ensures fresh(entries[token]) && !entries[token].active && entries[token].kind == kind && entries[token].expiresAt == expiresAt
    {
      var entry := new TokenEntry(token, kind, expiresAt);
      entries := entries[token := entry];
      assert ActiveTokens() == old(ActiveTokens());
      assert EntriesOk();
    }

    predicate Usable(token: string, kind: Kind, now: int)
      reads this, entries.Values
    {
      token in entries && entries[token].kind == kind && !entries[token].active && entries[token].expiresAt > now
    }

    /** Starts a ready, unexpired entry of the right kind, once; a full registry is busy and changes nothing. */
    method Begin(token: string, kind: Kind, now: int) returns (r: Result<Begun>)
      requires Valid()
      modifies this, entries.Values
      ensures Valid()
      ensures r.Ok? <==> SafeTime(now) && old(Usable(token, kind, now))
      // A time in [0, 2^53); filed under the token, of this kind, not begun, and not yet expired.
      ensures r.Ok? <==> 0 <= now < 0x20_0000_0000_0000 && token in old(entries) && old(entries)[token].kind == kind &&
                         !old(entries[token].active) && now < old(entries)[token].expiresAt
      ensures r == Ok(Busy) <==> SafeTime(now) && old(Usable(token, kind, now)) && old(activeCount) >= maxActive
      ensures r.Throws? || r.value.Busy? ==> activeCount == old(activeCount) && begun == old(begun) && open == old(open)
      ensures r.Ok? ==> entries == old(entries)
      ensures r.Throws? ==>
        entries == old(entries) ||
        (token in old(entries) && old(Stale(entries[token], now)) && entries == old(entries) - {token})
      // At most once: the entry had never been begun.
      ensures r.Ok? && r.value.Started? ==>
        && fresh(r.value.handle) && r.value.handle.registry == this && r.value.handle.entry == old(entries)[token]
        && r.value.handle.entry !in old(begun) && begun == old(begun) + {r.value.handle.entry}
        && open == old(open) + {r.value.handle} && activeCount == old(activeCount) + 1
    {
      if !SafeTime(now) {
        return Throws(InvalidArgument);
      }
      if token !in entries {
        return Throws(BadInput);
      }
      var entry := entries[token];
      if entry.kind != kind || entry.active || entry.expiresAt <= now {
        if !entry.active && entry.expiresAt <= now {
          Discard(token);
        }
        return Throws(BadInput);
      }
      if activeCount >= maxActive {
        return Ok(Busy);
      }
      var handle := Start(token);
      r := Ok(Started(handle));
    }

    method Discard(token: string)
      requires Valid() && token in entries && !entries[token].active
      modifies this`entries
      ensures Valid() && entries == old(entries) - {token}
    {
      entries := entries - {token};
      assert ActiveTokens() == old(ActiveTokens());
      FewerEntries(old(entries), entries);
    }

    method Start(token: string) returns (handle: Handle)
      requires Valid() && token in entries && !entries[token].active && activeCount < maxActive
      modifies this`activeCount, this`begun, this`open, entries[token]
      ensures Valid()
      ensures fresh(handle) && handle.registry == this && handle.entry == entries[token] && handle.entry !in old(begun)
      ensures begun == old(begun) + {handle.entry} && open == old(open) + {handle} && activeCount == old(activeCount) + 1
    {
      hide EntriesOk, CountOk;
      var entry := entries[token];
      Unbegun(token);
      handle := new Handle(this, entry);
      Activate(token);
      open := open + {handle};
      assert forall h | h in old(open) :: h.entry != entry;
      assert HandlesOk();
    }

    /** The entry's slot is given back with it. */
    method Release(entry: TokenEntry)
      requires EntriesOk() && CountOk() && entry.token in entries && entries[entry.token] == entry && entry.active
      modifies this`entries, this`activeCount
      ensures EntriesOk() && CountOk()
      ensures entries == old(entries) - {entry.token} && activeCount == old(activeCount) - 1
    {
      entries := entries - {entry.token};
      activeCount := activeCount - 1;
      assert ActiveTokens() == old(ActiveTokens()) - {entry.token};
      FewerEntries(old(entries), entries);
    }

    method Activate(token: string)
      requires EntriesOk() && CountOk() && token in entries && !entries[token].active && activeCount < maxActive
      modifies this`activeCount, this`begun, entries[token]
      ensures EntriesOk() && CountOk()
      ensures activeCount == old(activeCount) + 1 && begun == old(begun) + {entries[token]} && entries[token] !in old(begun)
    {
      hide CountOk, EntriesOk, ActiveTokens;
      OneEntryEach();
      Unbegun(token);
      Counted();
      entries[token].active := true;
      activeCount := activeCount + 1;
      begun := begun + {entries[token]};
      NowActive(token);
    }

    lemma Unbegun(token: string)
      requires EntriesOk() && token in entries && !entries[token].active
      ensures entries[token].token == token && entries[token] !in begun && token !in ActiveTokens()
    {
    }

    lemma Counted()
      ensures CountOk() <==> activeCount == |ActiveTokens()| <= maxActive
    {
    }

    twostate lemma NowActive(token: string)
      requires old(EntriesOk()) && old(token in entries && !entries[token].active) && entries == old(entries)
      requires forall a, b | a in entries && b in entries && entries[a] == entries[b] :: a == b
      requires entries[token].active && begun == old(begun) + {entries[token]}
      requires forall t | t in entries && t != token :: entries[t].active == old(entries[t].active)
      requires old(activeCount == |ActiveTokens()|) && activeCount == old(activeCount) + 1 <= maxActive
      requires token !in old(ActiveTokens())
      ensures EntriesOk() && CountOk()
    {
      assert ActiveTokens() == old(ActiveTokens()) + {token};
    }

    /** Different tokens have different entries. */
    lemma OneEntryEach()
      requires EntriesOk()
      ensures forall a, b | a in entries && b in entries && entries[a] == entries[b] :: a == b
    {
      forall a, b | a in entries && b in entries && entries[a] == entries[b] ensures a == b {
        assert entries[a].token == a && entries[b].token == b;
      }
    }
  }

  /** The options are checked before a registry exists. */
  method NewRegistry(maxEntries: int, maxActive: int, ttl: int) returns (registry: Option<McpFileTokenRegistry>)
    ensures registry.Some? <==> PositiveSafeInteger(maxEntries) && PositiveSafeInteger(maxActive) && PositiveSafeInteger(ttl)
    ensures registry.Some? <==>
      0 < maxEntries < 0x20_0000_0000_0000 && 0 < maxActive < 0x20_0000_0000_0000 && 0 < ttl < 0x20_0000_0000_0000
    ensures registry.Some? ==> fresh(registry.value) && registry.value.Valid() && registry.value.open == {}
    ensures registry.Some? ==> registry.value.entries == map[] && registry.value.maxEntries == maxEntries
    ensures registry.Some? ==> registry.value.maxActive == maxActive && registry.value.ttl == ttl
  {
    if !PositiveSafeInteger(maxEntries) || !PositiveSafeInteger(maxActive) || !PositiveSafeInteger(ttl) {
      return None;
    }
    var made := new McpFileTokenRegistry(maxEntries, maxActive, ttl);
    registry := Some(made);
  }

  predicate PositiveSafeInteger(n: int) {
    0 < n <= MAX_SAFE_INTEGER
  }

  lemma FewerEntries<K, V>(before: map<K, V>, after: map<K, V>)
    requires after.Keys <= before.Keys
    ensures |after| <= |before|
  {
    assert before.Keys == after.Keys + (before.Keys - after.Keys);
    assert |after.Keys| <= |before.Keys|;
  }

  /** What `begin` returns for an entry it started: `finish` with the flag that its closure holds. */
  class Handle {
    const registry: McpFileTokenRegistry
    const entry: TokenEntry
    var finished: bool

    constructor (registry: McpFileTokenRegistry, entry: TokenEntry)
      ensures this.registry == registry && this.entry == entry && !finished
    {
      this.registry, this.entry, finished := registry, entry, false;
    }

    /** Frees the entry and its slot the first time; does nothing after that. */
    method Finish()
      requires registry.Valid() && (finished || this in registry.open)
      modifies this, registry
      ensures finished && registry.Valid()
      ensures registry.begun == old(registry.begun) && registry.open == old(registry.open) - {this}
      ensures registry.activeCount == if old(finished) then old(registry.activeCount) else old(registry.activeCount) - 1
      ensures registry.entries == if old(finished) then old(registry.entries) else old(registry.entries) - {entry.token}
    {
      if finished {
        return;
      }
      finished := true;
      registry.open := registry.open - {this};
      // The source deletes the filed entry only if it is this one; it always is.
      assert entry.token in registry.entries && registry.entries[entry.token] == entry;
      registry.Release(entry);
      assert forall h | h in registry.open :: h.entry != entry;
    }
  }

  // ---- Whole runs ----

  datatype Call =
    | PrepareCall(kind: Kind, now: int, draws: seq<seq<Byte>>)
    | BeginCall(token: string, kind: Kind, now: int)
      // Any handle handed out so far, however often.
    | FinishCall(handle: nat)

  /** The handle is this registry's, and either finished or counted. */
  ghost predicate HandleOk(registry: McpFileTokenRegistry, h: Handle)
    reads registry, h
  {
    h.registry == registry && h.entry in registry.begun && (h.finished || h in registry.open)
  }

  /** The handles handed out: all good, all unfinished ones among them, each with an entry of its own. */
  ghost predicate HandedOut(registry: McpFileTokenRegistry, handles: seq<Handle>)
    reads registry, handles
  {
    && (forall h | h in handles :: HandleOk(registry, h))
    && (forall h | h in registry.open :: h in handles)
    && (forall i, j | 0 <= i < j < |handles| :: handles[i].entry != handles[j].entry)
  }

  method FinishOne(registry: McpFileTokenRegistry, handles: seq<Handle>, i: nat)
    requires registry.Valid() && HandedOut(registry, handles) && i < |handles|
    modifies registry, handles[i]
    ensures registry.Valid() && HandedOut(registry, handles)
    ensures registry.begun == old(registry.begun) && registry.entries.Values <= old(registry.entries.Values)
  {
    hide McpFileTokenRegistry.Valid;
    assert handles[i] in handles;
    handles[i].Finish();
    assert forall h | h in handles && h != handles[i] :: HandleOk(registry, h);
  }

  method PrepareOne(registry: McpFileTokenRegistry, handles: seq<Handle>, kind: Kind, now: int, draws: seq<seq<Byte>>)
    requires registry.Valid() && HandedOut(registry, handles) && |draws| == 8
    modifies registry`entries
    ensures registry.Valid() && HandedOut(registry, handles)
    ensures forall e | e in registry.entries.Values :: e in old(registry.entries.Values) || fresh(e)
  {
    hide McpFileTokenRegistry.Valid, FirstFree;
    var _ := registry.Prepare(kind, now, draws);
    assert forall h | h in handles :: HandleOk(registry, h);
  }

  method BeginOne(registry: McpFileTokenRegistry, handles: seq<Handle>, token: string, kind: Kind, now: int) returns (more: seq<Handle>)
    requires registry.Valid() && HandedOut(registry, handles)
    modifies registry, registry.entries.Values
    ensures registry.Valid() && HandedOut(registry, more)
    ensures handles <= more && forall h | h in more :: h in handles || (fresh(h) && h.entry !in old(registry.begun))
    ensures old(registry.begun) <= registry.begun && registry.entries.Values <= old(registry.entries.Values)
  {
    hide McpFileTokenRegistry.Valid;
    var begun := registry.Begin(token, kind, now);
    more := handles;
    assert forall h | h in handles :: HandleOk(registry, h);
    if begun.Ok? && begun.value.Started? {
      more := handles + [begun.value.handle];
      assert forall h | h in handles :: h.entry in old(registry.begun);
    }
  }

  /** Over every run of calls the counter stays the number of active entries, within its limits, and no entry
      is begun twice, whatever is finished and however often. */
  method RunCalls(registry: McpFileTokenRegistry, calls: seq<Call>) returns (handles: seq<Handle>)
    requires registry.Valid() && registry.open == {}
    requires forall call | call in calls && call.PrepareCall? :: |call.draws| == 8
    modifies registry, registry.entries.Values
    ensures registry.Valid() && HandedOut(registry, handles)
    ensures forall h | h in handles :: h.entry !in old(registry.begun)
  {
    hide McpFileTokenRegistry.Valid, HandedOut;
    handles := [];
    NoneHandedOut(registry);
    for k := 0 to |calls|
      invariant registry.Valid() && HandedOut(registry, handles)
      invariant forall e | e in registry.entries.Values :: e in old(registry.entries.Values) || fresh(e)
      invariant old(registry.begun) <= registry.begun
      invariant forall h | h in handles :: fresh(h) && h.entry !in old(registry.begun)
    {
      match calls[k] {
        case PrepareCall(kind, now, draws) =>
          assert calls[k] in calls;
          PrepareOne(registry, handles, kind, now, draws);
        case BeginCall(token, kind, now) =>
          handles := BeginOne(registry, handles, token, kind, now);
        case FinishCall(i) =>
          if i < |handles| {
            assert handles[i] in handles;
            FinishOne(registry, handles, i);
          }
      }
    }
  }

  lemma NoneHandedOut(registry: McpFileTokenRegistry)
    ensures registry.open == {} ==> HandedOut(registry, [])
  {
  }
}
