/** The bounded, expiring cache of verified API keys, and the decision of the middleware that reads it,
    verifies on a miss and always checks the live row. */
module ApiKeyCache {
  import opened Prelude

  const MAX_CACHED_API_KEYS: nat := 5_000

  datatype Identity = Identity(id: string, referenceId: string)

  /** One entry of the map, which keeps its entries in the order their keys were first inserted. */
  datatype Entry = Entry(key: string, identity: Identity, expiresAt: int)

  /** A verification against the authentication service, as it was cached. */
  datatype Verification = Verification(key: string, identity: Identity, at: int)

  predicate DistinctKeys(entries: seq<Entry>) {
    forall i, j :: 0 <= i < j < |entries| ==> entries[i].key != entries[j].key
  }

  function Lookup(entries: seq<Entry>, key: string): Option<Entry> {
    if entries == [] then None
    else if entries[0].key == key then Some(entries[0])
    else Lookup(entries[1..], key)
  }

  function Without(entries: seq<Entry>, key: string): seq<Entry> {
    if entries == [] then []
    else if entries[0].key == key then entries[1..]
    else [entries[0]] + Without(entries[1..], key)
  }

  /** The entries that have not expired, in order. */
  function Swept(entries: seq<Entry>, now: int): seq<Entry> {
    if entries == [] then []
    else Swept(entries[..|entries| - 1], now)
         + (if entries[|entries| - 1].expiresAt <= now then [] else [entries[|entries| - 1]])
  }

  /** Setting a key that is there replaces its value in place; a new key goes last. */
  function WithEntry(entries: seq<Entry>, e: Entry): seq<Entry> {
    if entries == [] then [e]
    else if entries[0].key == e.key then [e] + entries[1..]
    else [entries[0]] + WithEntry(entries[1..], e)
  }

  /** Room for one more: at the bound the expired entries go, and if none has expired the oldest. */
  function MadeRoom(entries: seq<Entry>, now: int): seq<Entry> {
    if |entries| < MAX_CACHED_API_KEYS then entries
    else
      var swept := Swept(entries, now);
      if |swept| < MAX_CACHED_API_KEYS then swept else swept[1..]
  }

  function AfterWrite(entries: seq<Entry>, key: string, identity: Identity, sweepAt: int, setAt: int, ttl: int)
    : seq<Entry>
  {
    WithEntry(MadeRoom(entries, sweepAt), Entry(key, identity, setAt + ttl))
  }

  // ----- Facts about the list operations -----

  lemma {:induction false} LookupFinds(entries: seq<Entry>, key: string)
    ensures Lookup(entries, key).Some? ==>
              Lookup(entries, key).value in entries && Lookup(entries, key).value.key == key
    ensures Lookup(entries, key).None? ==> forall e :: e in entries ==> e.key != key
  {
    if entries != [] {
      LookupFinds(entries[1..], key);
      assert entries == [entries[0]] + entries[1..];
    }
  }

  lemma {:induction false} LookupIsTheEntry(entries: seq<Entry>, e: Entry)
    requires DistinctKeys(entries) && e in entries
    ensures Lookup(entries, e.key) == Some(e)
  {
    assert entries == [entries[0]] + entries[1..];
    if entries[0].key != e.key {
      LookupIsTheEntry(entries[1..], e);
    }
  }

  lemma {:induction false} WithoutDrops(entries: seq<Entry>, key: string)
    requires DistinctKeys(entries)
    ensures DistinctKeys(Without(entries, key)) && |Without(entries, key)| <= |entries|
    ensures forall e :: e in Without(entries, key) <==> e in entries && e.key != key
  {
    if entries != [] {
      assert entries == [entries[0]] + entries[1..];
      WithoutDrops(entries[1..], key);
    }
  }

  lemma {:induction false} SweptKeeps(entries: seq<Entry>, now: int)
    requires DistinctKeys(entries)
    ensures DistinctKeys(Swept(entries, now)) && |Swept(entries, now)| <= |entries|
    ensures forall e :: e in Swept(entries, now) <==> e in entries && now < e.expiresAt
  {
    if entries != [] {
      var n := |entries| - 1;
      assert entries == entries[..n] + [entries[n]];
      SweptKeeps(entries[..n], now);
    }
  }

  lemma {:induction false} FullSweepKeepsAll(entries: seq<Entry>, now: int)
    ensures |Swept(entries, now)| <= |entries|
    ensures |Swept(entries, now)| == |entries| ==> Swept(entries, now) == entries
  {
    if entries != [] {
      var n := |entries| - 1;
      assert entries == entries[..n] + [entries[n]];
      FullSweepKeepsAll(entries[..n], now);
    }
  }

  lemma {:induction false} WithEntryHolds(entries: seq<Entry>, e: Entry)
    requires DistinctKeys(entries)
    ensures DistinctKeys(WithEntry(entries, e))
    ensures forall x :: x in WithEntry(entries, e) <==> x == e || (x in entries && x.key != e.key)
    ensures |WithEntry(entries, e)| <= |entries| + 1
  {
    if entries != [] {
      assert entries == [entries[0]] + entries[1..];
      if entries[0].key != e.key {
        WithEntryHolds(entries[1..], e);
      }
    }
  }

  // ----- What a write may evict -----

  /** An entry that goes when room is made was lost at the bound, and is expired or, when nothing had
      expired, the oldest. */
  predicate MayGo(entries: seq<Entry>, e: Entry, now: int) {
    && |entries| == 5_000
    && (e.expiresAt <= now || (e == entries[0] && forall x :: x in entries ==> now < x.expiresAt))
  }

  lemma DroppingOldest(entries: seq<Entry>)
    requires DistinctKeys(entries) && entries != []
    ensures DistinctKeys(entries[1..])
    ensures forall e :: e in entries <==> e == entries[0] || e in entries[1..]
  {
    assert entries == [entries[0]] + entries[1..];
  }

  lemma FullRoomIsMade(entries: seq<Entry>, now: int)
    requires DistinctKeys(entries) && |entries| == MAX_CACHED_API_KEYS && |Swept(entries, now)| == |entries|
    ensures MadeRoom(entries, now) == entries[1..] && forall e :: e in entries ==> now < e.expiresAt
  {
    FullSweepKeepsAll(entries, now);
    SweptKeeps(entries, now);
  }

  lemma RoomIsMade(entries: seq<Entry>, now: int)
    requires DistinctKeys(entries) && |entries| <= MAX_CACHED_API_KEYS
    ensures DistinctKeys(MadeRoom(entries, now)) && |MadeRoom(entries, now)| < MAX_CACHED_API_KEYS
    ensures forall e :: e in MadeRoom(entries, now) ==> e in entries
    ensures forall e :: e in entries && e !in MadeRoom(entries, now) ==> MayGo(entries, e, now)
  {
    SweptKeeps(entries, now);
    if |entries| == MAX_CACHED_API_KEYS && |Swept(entries, now)| == |entries| {
      FullRoomIsMade(entries, now);
      DroppingOldest(entries);
    }
  }

  /** A write keeps the bound, holds its own entry, leaves every other key's entry as it was or evicts it,
      and evicts only an expired entry or, when nothing had expired at the bound, the oldest. */
  lemma WriteEvictsExpiredOrOldest(entries: seq<Entry>, key: string, identity: Identity,
                                   sweepAt: int, setAt: int, ttl: int)
    requires DistinctKeys(entries) && |entries| <= MAX_CACHED_API_KEYS
    ensures var after := AfterWrite(entries, key, identity, sweepAt, setAt, ttl);
            && DistinctKeys(after) && |after| <= 5_000
            && Entry(key, identity, setAt + ttl) in after
            && (forall e :: e in after ==> e == Entry(key, identity, setAt + ttl) || (e in entries && e.key != key))
            && (forall e :: e in entries && e.key != key && e !in after ==> MayGo(entries, e, sweepAt))
  {
    RoomIsMade(entries, sweepAt);
    WithEntryHolds(MadeRoom(entries, sweepAt), Entry(key, identity, setAt + ttl));
  }

  // ----- The cache as the middleware holds it -----

  class VerifiedApiKeyCache {
    var entries: seq<Entry>
    const ttl: int
    /** Every write the cache has seen. */
    ghost var history: seq<Verification>

    /** Bounded, without repeated keys, and every entry is backed by a write to the same identity that
        expires one TTL after it was made. */
    ghost predicate Valid()
      reads this
    {
      && DistinctKeys(entries)
      && |entries| <= MAX_CACHED_API_KEYS
      && forall e :: e in entries ==> Verification(e.key, e.identity, e.expiresAt - ttl) in history
    }

    constructor (ttl: int)
      ensures Valid() && entries == [] && history == [] && this.ttl == ttl
    {
      this.ttl := ttl;
      entries, history := [], [];
    }

    /** The entry of a key is the one that looking it up finds. */
    lemma EntryIsFound(key: string)
      requires Valid()
      ensures forall e :: e in entries && e.key == key ==> Lookup(entries, key) == Some(e)
      ensures Lookup(entries, key).Some? ==>
                Lookup(entries, key).value in entries && Lookup(entries, key).value.key == key
    {
      LookupFinds(entries, key);
      forall e | e in entries && e.key == key ensures Lookup(entries, key) == Some(e) {
        LookupIsTheEntry(entries, e);
      }
    }

    /** readVerifiedApiKeyCache: an expired entry is deleted and not served. What is served was written,
        to the same identity, less than one TTL ago. */
    method Read(key: string, now: int) returns (cached: Option<Identity>)
      requires Valid()
      modifies this`entries
      ensures Valid()
      ensures var found := Lookup(old(entries), key);
              if found.Some? && found.value.expiresAt <= now
              then cached == None && entries == Without(old(entries), key)
              else entries == old(entries) && cached == (if found.Some? then Some(found.value.identity) else None)
      ensures cached.Some? ==>
                exists v :: v in history && v.key == key && v.identity == cached.value && now < v.at + ttl
    {
      var found := Lookup(entries, key);
      LookupFinds(entries, key);
      if found.None? {
        return None;
      }
      if found.value.expiresAt <= now {
        WithoutDrops(entries, key);
        entries := Without(entries, key);
        return None;
      }
      return Some(found.value.identity);
    }

    /** The sweep loop: expired entries are deleted while the map is walked in insertion order. */
    method Sweep(now: int)
      requires Valid()
      modifies this`entries
      ensures Valid() && entries == Swept(old(entries), now)
    {
      var all := entries;
      var kept: seq<Entry> := [];
      for i := 0 to |all|
        invariant kept == Swept(all[..i], now)
      {
        assert all[..i + 1][..i] == all[..i];
        if all[i].expiresAt > now {
          kept := kept + [all[i]];
        }
      }
      assert all[..|all|] == all;
      SweptKeeps(all, now);
      entries := kept;
    }

    /** Room at the bound: the sweep first, then the oldest entry. */
    method MakeRoom(now: int)
      requires Valid()
      modifies this`entries
      ensures Valid() && entries == MadeRoom(old(entries), now)
    {
      RoomIsMade(entries, now);
      if |entries| >= MAX_CACHED_API_KEYS {
        Sweep(now);
        if |entries| >= MAX_CACHED_API_KEYS {
          entries := entries[1..];
        }
      }
    }

    /** writeVerifiedApiKeyCache, with the two readings of the clock it takes. */
    method Write(key: string, identity: Identity, sweepAt: int, setAt: int)
      requires Valid()
      modifies this
      ensures Valid()
      ensures entries == AfterWrite(old(entries), key, identity, sweepAt, setAt, ttl)
      ensures Entry(key, identity, setAt + ttl) in entries
      ensures history == old(history) + [Verification(key, identity, setAt)]
    {
      ghost var before := entries;
      MakeRoom(sweepAt);
      WriteEvictsExpiredOrOldest(before, key, identity, sweepAt, setAt, ttl);
      entries := WithEntry(entries, Entry(key, identity, setAt + ttl));
      history := history + [Verification(key, identity, setAt)];
    }
  }

  // ----- The middleware -----

  datatype Decision = Rejected | Accepted(identity: Identity)

  /** Whatever other requests do to the cache while this one awaits. */
  method OtherRequests(cache: VerifiedApiKeyCache)
    requires cache.Valid()
    modifies cache
    ensures cache.Valid() && old(cache.history) <= cache.history
  {
    var turns: nat :| 0 <= turns;
    for i := 0 to turns
      invariant cache.Valid() && old(cache.history) <= cache.history
    {
      var key: string := *;
      var identity: Identity := *;
      var writes: bool := *;
      var sweepAt: int := *;
      var setAt: int := *;
      if writes {
        cache.Write(key, identity, sweepAt, setAt);
      } else {
        var _ := cache.Read(key, setAt);
      }
    }
  }

  /** One request with a well-formed key, with other requests at every await. The verification and the live
      rows are what the authentication service and the database answer in their turn. A request is accepted
      if and only if the identity of its unexpired entry or, without one, the identity it is verified to is
      live. Whoever is accepted was verified to that identity by this request, which then leaves its own
      entry, or by a write seen in the cache on arrival and less than one TTL old. */
  method Authenticate(cache: VerifiedApiKeyCache, key: string, verified: Option<Identity>, live: set<Identity>,
                      readAt: int, sweepAt: int, setAt: int)
    returns (decision: Decision, missed: bool)
    requires cache.Valid()
    modifies cache
    ensures cache.Valid() && old(cache.history) <= cache.history
    ensures forall e :: e in old(cache.entries) && e.key == key && readAt < e.expiresAt ==>
              !missed && decision == if e.identity in live then Accepted(e.identity) else Rejected
    ensures missed <==> forall e :: e in old(cache.entries) && e.key == key ==> e.expiresAt <= readAt
    ensures missed ==>
              decision == if verified.Some? && verified.value in live then Accepted(verified.value) else Rejected
    ensures decision.Accepted? ==> decision.identity in live
    ensures decision.Accepted? && !missed ==>
              exists v :: v in old(cache.history) && v.key == key && v.identity == decision.identity
                          && readAt < v.at + cache.ttl
    ensures decision.Accepted? && missed ==>
              && verified == Some(decision.identity)
              && |old(cache.history)| < |cache.history|
              && cache.history[|cache.history| - 1] == Verification(key, decision.identity, setAt)
              && Entry(key, decision.identity, setAt + cache.ttl) in cache.entries
  {
    cache.EntryIsFound(key);
    var cached := cache.Read(key, readAt);
    missed := cached.None?;
    if missed {
      OtherRequests(cache);   // while the key is verified
    }
    var identity := if missed then verified else cached;
    if identity.None? {
      return Rejected, missed;
    }
    OtherRequests(cache);     // while the live row is read
    if identity.value !in live {
      return Rejected, missed;
    }
    if missed {
      cache.Write(key, identity.value, sweepAt, setAt);
    }
    return Accepted(identity.value), missed;
  }

  // ----- Runs of the cache -----

  /** Reads and writes of concurrent requests, each atomic between awaits. */
  datatype Operation =
    | ReadOp(key: string, now: int)
    | WriteOp(key: string, identity: Identity, sweepAt: int, setAt: int)

  function AfterOperation(entries: seq<Entry>, op: Operation, ttl: int): seq<Entry> {
    match op
    case ReadOp(key, now) =>
      var found := Lookup(entries, key);
      if found.Some? && found.value.expiresAt <= now then Without(entries, key) else entries
    case WriteOp(key, identity, sweepAt, setAt) => AfterWrite(entries, key, identity, sweepAt, setAt, ttl)
  }

  function AfterAll(ops: seq<Operation>, ttl: int): seq<Entry> {
    if ops == [] then [] else AfterOperation(AfterAll(ops[..|ops| - 1], ttl), ops[|ops| - 1], ttl)
  }

  predicate WriteOf(op: Operation, e: Entry, ttl: int) {
    op.WriteOp? && op.key == e.key && op.identity == e.identity && e.expiresAt == op.setAt + ttl
  }

  /** The i-th operation made the entry, and no later one wrote its key. */
  predicate LastWrite(ops: seq<Operation>, i: int, e: Entry, ttl: int) {
    && 0 <= i < |ops| && WriteOf(ops[i], e, ttl)
    && forall j :: i < j < |ops| ==> !(ops[j].WriteOp? && ops[j].key == e.key)
  }

  lemma LastWriteStays(ops: seq<Operation>, op: Operation, i: int, e: Entry, ttl: int)
    requires LastWrite(ops, i, e, ttl) && !(op.WriteOp? && op.key == e.key)
    ensures LastWrite(ops + [op], i, e, ttl)
  {
  }

  lemma OperationKeepsEntries(entries: seq<Entry>, op: Operation, ttl: int)
    requires DistinctKeys(entries) && |entries| <= MAX_CACHED_API_KEYS
    ensures var after := AfterOperation(entries, op, ttl);
            && DistinctKeys(after) && |after| <= MAX_CACHED_API_KEYS
            && forall e :: e in after ==>
                 WriteOf(op, e, ttl) || (e in entries && !(op.WriteOp? && op.key == e.key))
  {
    match op {
      case ReadOp(key, _) => WithoutDrops(entries, key);
      case WriteOp(key, identity, sweepAt, setAt) =>
        WriteEvictsExpiredOrOldest(entries, key, identity, sweepAt, setAt, ttl);
    }
  }

  /** In every run, whatever the order of the operations and of their clock readings: the cache stays
      within its bound, holds each key once, and every entry is the one the last write of its key made. */
  lemma {:induction false} RunsStayBounded(ops: seq<Operation>, ttl: int)
    ensures var entries := AfterAll(ops, ttl);
            && |entries| <= 5_000 && DistinctKeys(entries)
            && forall e :: e in entries ==> exists i :: LastWrite(ops, i, e, ttl)
  {
    if ops != [] {
      var n := |ops| - 1;
      assert ops == ops[..n] + [ops[n]];
      RunsStayBounded(ops[..n], ttl);
      OperationKeepsEntries(AfterAll(ops[..n], ttl), ops[n], ttl);
      forall e | e in AfterAll(ops, ttl) ensures exists i :: LastWrite(ops, i, e, ttl) {
        if WriteOf(ops[n], e, ttl) {
          assert LastWrite(ops, n, e, ttl);
        } else {
          var i :| LastWrite(ops[..n], i, e, ttl);
          LastWriteStays(ops[..n], ops[n], i, e, ttl);
        }
      }
    }
  }

  // ----- The order of the entries -----

  /** The ranks of the keys go up along the list. */
  ghost predicate Increasing(entries: seq<Entry>, rank: string -> int) {
    forall i, j :: 0 <= i < j < |entries| ==> rank(entries[i].key) < rank(entries[j].key)
  }

  lemma {:induction false} IncreasingWithout(entries: seq<Entry>, key: string, rank: string -> int)
    requires Increasing(entries, rank)
    ensures Increasing(Without(entries, key), rank)
    ensures forall e :: e in Without(entries, key) ==> e in entries
  {
    if entries != [] && entries[0].key != key {
      IncreasingWithout(entries[1..], key, rank);
      assert entries == [entries[0]] + entries[1..];
      assert forall e :: e in Without(entries[1..], key) ==> rank(entries[0].key) < rank(e.key);
    }
  }

  lemma {:induction false} IncreasingSwept(entries: seq<Entry>, now: int, rank: string -> int)
    requires Increasing(entries, rank)
    ensures Increasing(Swept(entries, now), rank)
    ensures forall e :: e in Swept(entries, now) ==> e in entries
  {
    if entries != [] {
      var n := |entries| - 1;
      IncreasingSwept(entries[..n], now, rank);
      assert entries == entries[..n] + [entries[n]];
      assert forall e :: e in Swept(entries[..n], now) ==> rank(e.key) < rank(entries[n].key);
    }
  }

  lemma IncreasingMadeRoom(entries: seq<Entry>, now: int, rank: string -> int)
    requires Increasing(entries, rank)
    ensures Increasing(MadeRoom(entries, now), rank)
    ensures forall e :: e in MadeRoom(entries, now) ==> e in entries
  {
    IncreasingSwept(entries, now, rank);
  }

  lemma IncreasingCons(e: Entry, rest: seq<Entry>, rank: string -> int)
    requires Increasing(rest, rank) && forall x :: x in rest ==> rank(e.key) < rank(x.key)
    ensures Increasing([e] + rest, rank)
  {
  }

  lemma IncreasingTail(entries: seq<Entry>, rank: string -> int)
    requires Increasing(entries, rank) && entries != []
    ensures Increasing(entries[1..], rank) && forall x :: x in entries[1..] ==> rank(entries[0].key) < rank(x.key)
  {
  }

  lemma IncreasingAgrees(entries: seq<Entry>, rank: string -> int, next: string -> int)
    requires Increasing(entries, rank) && forall x :: x in entries ==> next(x.key) == rank(x.key)
    ensures Increasing(entries, next)
  {
  }

  /** A key that is there keeps its place, and a new key goes last. */
  lemma {:induction false} IncreasingWithEntry(entries: seq<Entry>, e: Entry, rank: string -> int)
    requires Increasing(entries, rank)
    requires Lookup(entries, e.key).None? ==> forall x :: x in entries ==> rank(x.key) < rank(e.key)
    ensures Increasing(WithEntry(entries, e), rank)
    ensures forall x :: x in WithEntry(entries, e) ==> x == e || x in entries
  {
    if entries != [] {
      assert entries == [entries[0]] + entries[1..];
      IncreasingTail(entries, rank);
      if entries[0].key == e.key {
        IncreasingCons(e, entries[1..], rank);
      } else {
        IncreasingWithEntry(entries[1..], e, rank);
        LookupFinds(entries[1..], e.key);
        IncreasingCons(entries[0], WithEntry(entries[1..], e), rank);
      }
    }
  }

  /** The operation that put a key's present entry into the map, as opposed to one that wrote over it. */
  function InsertedBy(ops: seq<Operation>, ttl: int, key: string): int {
    if ops == [] then -1
    else if Inserts(AfterAll(ops[..|ops| - 1], ttl), ops[|ops| - 1], key) then |ops| - 1
    else InsertedBy(ops[..|ops| - 1], ttl, key)
  }

  /** The operation writes a key that is not in the map once room is made. */
  predicate Inserts(before: seq<Entry>, op: Operation, key: string) {
    op.WriteOp? && op.key == key && Lookup(MadeRoom(before, op.sweepAt), key).None?
  }

  lemma {:induction false} InsertedBefore(ops: seq<Operation>, ttl: int, key: string)
    ensures InsertedBy(ops, ttl, key) < |ops|
  {
    if ops != [] {
      InsertedBefore(ops[..|ops| - 1], ttl, key);
    }
  }

  /** One operation keeps the order, for ranks that put a newly inserted key after all others. */
  lemma OperationKeepsOrder(before: seq<Entry>, op: Operation, ttl: int, rank: string -> int, next: string -> int)
    requires Increasing(before, rank)
    requires forall x :: x in before && !Inserts(before, op, x.key) ==> next(x.key) == rank(x.key)
    requires op.WriteOp? && Inserts(before, op, op.key) ==> forall x :: x in before ==> rank(x.key) < next(op.key)
    ensures Increasing(AfterOperation(before, op, ttl), next)
  {
    match op {
      case ReadOp(key, _) =>
        IncreasingAgrees(before, rank, next);
        IncreasingWithout(before, key, next);
      case WriteOp(key, identity, sweepAt, setAt) =>
        var room := MadeRoom(before, sweepAt);
        IncreasingMadeRoom(before, sweepAt, rank);
        LookupFinds(room, key);
        IncreasingAgrees(room, rank, next);
        IncreasingWithEntry(room, Entry(key, identity, setAt + ttl), next);
    }
  }

  /** In every run the map holds its entries in the order in which they were inserted, so that the first is
      the oldest. */
  lemma {:induction false} EntriesAreInInsertionOrder(ops: seq<Operation>, ttl: int)
    ensures Increasing(AfterAll(ops, ttl), key => InsertedBy(ops, ttl, key))
  {
    if ops != [] {
      var n := |ops| - 1;
      var rank, next := key => InsertedBy(ops[..n], ttl, key), key => InsertedBy(ops, ttl, key);
      EntriesAreInInsertionOrder(ops[..n], ttl);
      forall key: string ensures rank(key) < n {
        InsertedBefore(ops[..n], ttl, key);
      }
      OperationKeepsOrder(AfterAll(ops[..n], ttl), ops[n], ttl, rank, next);
    }
  }

  /** What a read after a run serves. */
  function Served(ops: seq<Operation>, key: string, now: int, ttl: int): Option<Identity> {
    var found := Lookup(AfterAll(ops, ttl), key);
    if found.Some? && now < found.value.expiresAt then Some(found.value.identity) else None
  }

  /** Staleness over every run of concurrent requests: what a read serves is the identity of the last
      write of that key, made less than one TTL before the read. */
  lemma ServedIsLastWriteWithinTtl(ops: seq<Operation>, key: string, now: int, ttl: int)
    requires Served(ops, key, now, ttl).Some?
    ensures exists i :: && 0 <= i < |ops| && ops[i].WriteOp? && ops[i].key == key
                        && ops[i].identity == Served(ops, key, now, ttl).value && now - ops[i].setAt < ttl
                        && forall j :: i < j < |ops| ==> !(ops[j].WriteOp? && ops[j].key == key)
  {
    LookupFinds(AfterAll(ops, ttl), key);
    RunsStayBounded(ops, ttl);
    var e := Lookup(AfterAll(ops, ttl), key).value;
    var i :| LastWrite(ops, i, e, ttl);
  }

  // ----- Concurrent requests, step by step -----

  /** Where a request has its identity from: its hit in the cache, or the service's answer at a moment. */
  datatype Source = Cache | Service(moment: nat)

  /** How far a request has come: it missed the cache and awaits the service; it awaits the live row; it
      has found the live row at a moment; it is accepted, after its write if it had missed; or refused. */
  datatype Phase =
    | Verifying
    | Checking(identity: Identity, source: Source)
    | Passed(identity: Identity, source: Source, checked: nat)
    | Admitted(identity: Identity, source: Source, checked: nat, setAt: int)
    | Turned

  datatype Request = Request(key: string, arrived: nat, readAt: int, phase: Phase)

  datatype Answer = Answer(key: string, identity: Identity, moment: nat)

  /** The cache, every request so far, what the service has answered, and the live rows at every moment
      up to now. */
  datatype State = State(entries: seq<Entry>, ttl: int, requests: seq<Request>, answers: seq<Answer>,
                         live: seq<set<Identity>>)

  datatype Step =
    | Arrive(key: string, now: int)                    // and reads the cache
    | Verify(i: nat, verified: Option<Identity>)
    | CheckLive(i: nat)
    | Finish(i: nat, sweepAt: int, setAt: int)
    | ChangeLive(rows: set<Identity>)

  predicate Enabled(s: State, step: Step) {
    && s.live != []
    && match step
       case Arrive(_, _) => true
       case Verify(i, _) => i < |s.requests| && s.requests[i].phase.Verifying?
       case CheckLive(i) => i < |s.requests| && s.requests[i].phase.Checking?
       case Finish(i, _, _) => i < |s.requests| && s.requests[i].phase.Passed?
       case ChangeLive(_) => true
  }

  function Now(s: State): int {
    |s.live| - 1
  }

  function After(s: State, i: nat, phase: Phase): seq<Request>
    requires i < |s.requests|
  {
    s.requests[i := s.requests[i].(phase := phase)]
  }

  function Apply(s: State, step: Step): State
    requires Enabled(s, step)
  {
    var next := s.(live := s.live + [if step.ChangeLive? then step.rows else s.live[Now(s)]]);
    match step
    case Arrive(key, now) =>
      var hit := Lookup(s.entries, key);
      var phase := if hit.Some? && now < hit.value.expiresAt then Checking(hit.value.identity, Cache) else Verifying;
      next.(entries := AfterOperation(s.entries, ReadOp(key, now), s.ttl),
            requests := s.requests + [Request(key, Now(s), now, phase)])
    case Verify(i, verified) =>
      if verified.None? then next.(requests := After(s, i, Turned))
      else next.(requests := After(s, i, Checking(verified.value, Service(Now(s)))),
                 answers := s.answers + [Answer(s.requests[i].key, verified.value, Now(s))])
    case CheckLive(i) =>
      var p := s.requests[i].phase;
      var phase := if p.identity in s.live[Now(s)] then Passed(p.identity, p.source, Now(s)) else Turned;
      next.(requests := After(s, i, phase))
    case Finish(i, sweepAt, setAt) =>
      var p := s.requests[i].phase;
      next.(requests := After(s, i, Admitted(p.identity, p.source, p.checked, setAt)),
            entries := if p.source.Cache? then s.entries
                       else AfterOperation(s.entries, WriteOp(s.requests[i].key, p.identity, sweepAt, setAt), s.ttl))
    case ChangeLive(_) => next
  }

  predicate Admissible(s: State, run: seq<Step>)
    decreases |run|
  {
    run == [] || (Enabled(s, run[0]) && Admissible(Apply(s, run[0]), run[1..]))
  }

  function Execute(s: State, run: seq<Step>): State
    requires Admissible(s, run)
    decreases |run|
  {
    if run == [] then s else Execute(Apply(s, run[0]), run[1..])
  }

  function Empty(ttl: int, live: set<Identity>): State {
    State([], ttl, [], [], [live])
  }

  /** How a request is decided, step by step: on arrival it goes on with the identity of an unexpired entry of
      its key if there is one, and asks the service otherwise; it goes on from there if the service names an
      identity; it is passed if and only if its identity is live at that moment; and a passed request is
      always admitted. */
  lemma RequestsAreDecided(s: State, step: Step)
    requires Enabled(s, step) && DistinctKeys(s.entries)
    ensures var t := Apply(s, step);
            match step
            case Arrive(key, now) =>
              && |t.requests| == |s.requests| + 1
              && (forall e :: e in s.entries && e.key == key && now < e.expiresAt ==>
                    t.requests[|s.requests|].phase == Checking(e.identity, Cache))
              && ((forall e :: e in s.entries && e.key == key ==> e.expiresAt <= now) ==>
                    t.requests[|s.requests|].phase == Verifying)
            case Verify(i, verified) =>
              if verified.Some? then t.requests[i].phase == Checking(verified.value, Service(Now(s)))
              else t.requests[i].phase == Turned
            case CheckLive(i) =>
              var p := s.requests[i].phase;
              if p.identity in s.live[|s.live| - 1] then t.requests[i].phase == Passed(p.identity, p.source, Now(s))
              else t.requests[i].phase == Turned
            case Finish(i, _, setAt) =>
              var p := s.requests[i].phase;
              t.requests[i].phase == Admitted(p.identity, p.source, p.checked, setAt)
            case ChangeLive(rows) => t.requests == s.requests && t.live[|t.live| - 1] == rows
  {
    if step.Arrive? {
      LookupFinds(s.entries, step.key);
      forall e | e in s.entries && e.key == step.key ensures Lookup(s.entries, step.key) == Some(e) {
        LookupIsTheEntry(s.entries, e);
      }
    }
  }

  /** The request verified its key to its identity itself, after it arrived. */
  predicate Vouched(s: State, r: Request) {
    && r.phase.Admitted? && r.phase.source.Service?
    && r.arrived <= r.phase.source.moment <= r.phase.checked
    && Answer(r.key, r.phase.identity, r.phase.source.moment) in s.answers
  }

  /** The live row of the request's identity was there when it was looked for, after the request arrived. */
  predicate WasLive(s: State, r: Request) {
    && (r.phase.Passed? || r.phase.Admitted?)
    && r.arrived <= r.phase.checked < Now(s) && r.phase.identity in s.live[r.phase.checked]
  }

  /** The j-th request wrote this key and identity at this time, verified and live. */
  predicate Wrote(s: State, j: int, key: string, identity: Identity, at: int) {
    && 0 <= j < |s.requests|
    && s.requests[j].key == key && s.requests[j].phase.Admitted?
    && s.requests[j].phase.identity == identity && s.requests[j].phase.setAt == at
    && Vouched(s, s.requests[j]) && WasLive(s, s.requests[j])
  }

  /** When the request arrived the cache held an entry that another had written, checked before, and that
      was less than one TTL old on this request's clock. */
  ghost predicate Backed(s: State, r: Request, identity: Identity) {
    exists j, at :: Wrote(s, j, r.key, identity, at) && s.requests[j].phase.checked < r.arrived && r.readAt < at + s.ttl
  }

  /** What every request in a run satisfies, by its phase. */
  ghost predicate Sound(s: State, r: Request) {
    && 0 <= r.arrived < Now(s)
    && (r.phase.Checking? || r.phase.Passed? || r.phase.Admitted? ==>
          match r.phase.source
          case Cache => Backed(s, r, r.phase.identity)
          case Service(moment) =>
            && r.arrived <= moment < Now(s) && Answer(r.key, r.phase.identity, moment) in s.answers
            && (!r.phase.Checking? ==> moment <= r.phase.checked))
    && (r.phase.Passed? || r.phase.Admitted? ==> WasLive(s, r))
  }

  predicate WroteEntry(s: State, j: int, e: Entry) {
    Wrote(s, j, e.key, e.identity, e.expiresAt - s.ttl)
  }

  ghost predicate EntriesBacked(s: State) {
    forall e :: e in s.entries ==> exists j :: WroteEntry(s, j, e)
  }

  ghost predicate AllSound(s: State) {
    && s.live != []
    && DistinctKeys(s.entries) && |s.entries| <= MAX_CACHED_API_KEYS
    && (forall i :: 0 <= i < |s.requests| ==> Sound(s, s.requests[i]))
    && EntriesBacked(s)
  }

  /** What was written stays written. */
  lemma WrittenStays(s: State, step: Step, j: int, key: string, identity: Identity, at: int)
    requires Enabled(s, step) && Wrote(s, j, key, identity, at)
    ensures Wrote(Apply(s, step), j, key, identity, at) && Apply(s, step).requests[j] == s.requests[j]
  {
  }

  lemma BackingStays(s: State, step: Step, r: Request, identity: Identity)
    requires Enabled(s, step) && Backed(s, r, identity)
    ensures Backed(Apply(s, step), r, identity)
  {
    var j, at :| Wrote(s, j, r.key, identity, at) && s.requests[j].phase.checked < r.arrived && r.readAt < at + s.ttl;
    WrittenStays(s, step, j, r.key, identity, at);
  }

  lemma SoundnessStays(s: State, step: Step, r: Request)
    requires Enabled(s, step) && Sound(s, r)
    ensures Sound(Apply(s, step), r)
  {
    if (r.phase.Checking? || r.phase.Passed? || r.phase.Admitted?) && r.phase.source.Cache? {
      BackingStays(s, step, r, r.phase.identity);
    }
  }

  lemma ArrivalIsSound(s: State, key: string, now: int)
    requires AllSound(s)
    ensures var t := Apply(s, Arrive(key, now)); |s.requests| < |t.requests| && Sound(t, t.requests[|s.requests|])
  {
    var hit := Lookup(s.entries, key);
    LookupFinds(s.entries, key);
    var t := Apply(s, Arrive(key, now));
    var r := t.requests[|s.requests|];
    if hit.Some? && now < hit.value.expiresAt {
      var j :| WroteEntry(s, j, hit.value);
      WrittenStays(s, Arrive(key, now), j, key, hit.value.identity, hit.value.expiresAt - s.ttl);
      assert Backed(t, r, hit.value.identity);
    }
  }

  lemma MoverIsSound(s: State, step: Step)
    requires AllSound(s) && Enabled(s, step) && !step.Arrive? && !step.ChangeLive?
    ensures Sound(Apply(s, step), Apply(s, step).requests[step.i])
  {
    var r := s.requests[step.i];
    SoundnessStays(s, step, r);
    if (r.phase.Checking? || r.phase.Passed?) && r.phase.source.Cache? {
      var t := Apply(s, step);
      var j, at :| && Wrote(t, j, r.key, r.phase.identity, at)
                   && t.requests[j].phase.checked < r.arrived && r.readAt < at + t.ttl;
      assert Backed(t, t.requests[step.i], r.phase.identity);
    }
  }

  /** Where the entries after a step come from: they were there, or the step wrote them. */
  lemma EntriesComeFromWrites(s: State, step: Step)
    requires AllSound(s) && Enabled(s, step)
    ensures var t := Apply(s, step);
            && DistinctKeys(t.entries) && |t.entries| <= MAX_CACHED_API_KEYS
            && forall e :: e in t.entries && e !in s.entries ==>
                 step.Finish? && s.requests[step.i].phase.source.Service?
                 && e == Entry(s.requests[step.i].key, s.requests[step.i].phase.identity, step.setAt + s.ttl)
  {
    if step.Arrive? {
      OperationKeepsEntries(s.entries, ReadOp(step.key, step.now), s.ttl);
    }
    if step.Finish? {
      var p := s.requests[step.i].phase;
      OperationKeepsEntries(s.entries, WriteOp(s.requests[step.i].key, p.identity, step.sweepAt, step.setAt), s.ttl);
    }
  }

  lemma FinisherWrites(s: State, step: Step)
    requires AllSound(s) && Enabled(s, step) && step.Finish? && s.requests[step.i].phase.source.Service?
    ensures Wrote(Apply(s, step), step.i, s.requests[step.i].key, s.requests[step.i].phase.identity, step.setAt)
  {
    assert Sound(s, s.requests[step.i]);
  }

  lemma StepKeepsEntriesBacked(s: State, step: Step)
    requires AllSound(s) && Enabled(s, step)
    ensures var t := Apply(s, step);
            DistinctKeys(t.entries) && |t.entries| <= MAX_CACHED_API_KEYS && EntriesBacked(t)
  {
    var t := Apply(s, step);
    EntriesComeFromWrites(s, step);
    if step.Finish? && s.requests[step.i].phase.source.Service? {
      FinisherWrites(s, step);
    }
    forall e | e in t.entries ensures exists j :: WroteEntry(t, j, e) {
      if e in s.entries {
        var j :| WroteEntry(s, j, e);
        WrittenStays(s, step, j, e.key, e.identity, e.expiresAt - s.ttl);
        assert WroteEntry(t, j, e);
      } else {
        assert WroteEntry(t, step.i, e);
      }
    }
  }

  lemma StepKeepsSound(s: State, step: Step)
    requires AllSound(s) && Enabled(s, step)
    ensures AllSound(Apply(s, step))
  {
    var t := Apply(s, step);
    StepKeepsEntriesBacked(s, step);
    if step.Arrive? {
      ArrivalIsSound(s, step.key, step.now);
    } else if !step.ChangeLive? {
      MoverIsSound(s, step);
    }
    forall i | 0 <= i < |t.requests| ensures Sound(t, t.requests[i]) {
      if i < |s.requests| && t.requests[i] == s.requests[i] {
        SoundnessStays(s, step, s.requests[i]);
      }
    }
  }

  lemma {:induction false} RunKeepsSound(s: State, run: seq<Step>)
    requires AllSound(s) && Admissible(s, run)
    ensures AllSound(Execute(s, run)) && Execute(s, run).ttl == s.ttl
    decreases |run|
  {
    if run != [] {
      StepKeepsSound(s, run[0]);
      RunKeepsSound(Apply(s, run[0]), run[1..]);
    }
  }

  /** In every interleaving of requests, with live rows coming and going and clocks reading anything: the
      cache stays within its bound; whoever is accepted had a live row after arriving; and was verified to
      that identity either by its own question to the service after arriving, or by another request, verified
      and live in the same way before this one arrived, whose entry was less than one TTL old when read. */
  lemma AcceptedIsVerifiedAndLive(ttl: int, live: set<Identity>, run: seq<Step>, i: nat)
    requires Admissible(Empty(ttl, live), run)
    ensures |Execute(Empty(ttl, live), run).entries| <= 5_000
    ensures var t := Execute(Empty(ttl, live), run);
            i < |t.requests| && t.requests[i].phase.Admitted? ==>
              && WasLive(t, t.requests[i])
              && (Vouched(t, t.requests[i]) || Backed(t, t.requests[i], t.requests[i].phase.identity))
              && (t.requests[i].phase.source.Service? <==> Vouched(t, t.requests[i]))
              && t.ttl == ttl
  {
    RunKeepsSound(Empty(ttl, live), run);
    var t := Execute(Empty(ttl, live), run);
    assert i < |t.requests| ==> Sound(t, t.requests[i]);
  }
}
