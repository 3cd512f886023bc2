/** The LRU + TTL cache of worker agents.

    The cache is a Go map, so an eviction scans its keys in an order the runtime chooses:
    each request carries that order.  `Apply` is the specification of one operation, `Run` of
    a whole trace, and the class `AgentCache` implements both in place.  */
module AgentCaching {
  import opened Clock
  import opened Option
  import opened RecentKeys

  datatype CachedAgent<A> = CachedAgent(agent: A, createdAt: int, lastUsed: int, useCount: nat)

  datatype Limits = Limits(maxSize: nat, ttlSec: nat, idleSec: nat)

  datatype Store<A> = Store(cache: map<string, CachedAgent<A>>, hits: nat, misses: nat, evictions: nat)

  /** `created` is what the factory would return; `order` is the order an eviction scans the keys in. */
  datatype Op<A> =
    | Get(key: string, now: int, created: Option<A>, order: seq<string>)
    | Remove(key: string)
    | Clear
    | CleanupIdle(now: int)

  // ---------------------------------------------------------------- one operation

  ghost predicate IsOrder(order: seq<string>, keys: set<string>) {
    && (forall i, j :: 0 <= i < j < |order| ==> order[i] != order[j])
    && (forall k :: k in order <==> k in keys)
  }

  /** The key the eviction scan ends with; the empty string doubles as "nothing found yet". */
  function Scan<A>(cache: map<string, CachedAgent<A>>, order: seq<string>): (oldest: string)
    requires forall k :: k in order ==> k in cache
    ensures oldest == "" || oldest in order
  {
    if order == [] then ""
    else
      var k, so_far := order[|order| - 1], Scan(cache, order[..|order| - 1]);
      if so_far == "" || cache[k].lastUsed < cache[so_far].lastUsed then k else so_far
  }

  function Evict<A>(st: Store<A>, order: seq<string>): Store<A>
    requires forall k :: k in order ==> k in st.cache
  {
    var oldest := Scan(st.cache, order);
    if oldest == "" then st
    else st.(cache := st.cache - {oldest}, evictions := st.evictions + 1)
  }

  predicate Expired<A>(limits: Limits, ent: CachedAgent<A>, now: int) {
    now - ent.createdAt > limits.ttlSec * NANOS_PER_SECOND
  }

  predicate Hit<A>(limits: Limits, st: Store<A>, key: string, now: int) {
    key in st.cache && !Expired(limits, st.cache[key], now)
  }

  /** The keys an eviction forced by this request would scan. */
  function Evictable<A>(st: Store<A>, key: string): set<string> {
    st.cache.Keys - {key}
  }

  /** A request that has to evict names the order of the turn that found a key to evict: the turns
      before it, if any, changed nothing.  */
  ghost predicate Legal<A>(limits: Limits, st: Store<A>, op: Op<A>) {
    op.Get? && !Hit(limits, st, op.key, op.now) ==>
      && IsOrder(op.order, Evictable(st, op.key))
      && (op.created.Some? && |st.cache - {op.key}| >= limits.maxSize ==> Scan(st.cache - {op.key}, op.order) != "")
  }

  ghost predicate Bounded<A>(limits: Limits, st: Store<A>) {
    1 <= limits.maxSize && |st.cache| <= limits.maxSize
  }

  /** A hit marks the entry as used. */
  function Touched<A>(st: Store<A>, key: string, now: int): Store<A>
    requires key in st.cache
  {
    var ent := st.cache[key];
    st.(cache := st.cache[key := ent.(lastUsed := now, useCount := ent.useCount + 1)], hits := st.hits + 1)
  }

  /** A missed request drops an expired entry, which is counted as a miss of its own. */
  function Missed<A>(st: Store<A>, key: string): Store<A> {
    st.(cache := st.cache - {key}, misses := st.misses + (if key in st.cache then 2 else 1))
  }

  function WithRoom<A>(limits: Limits, st: Store<A>, order: seq<string>): Store<A>
    requires |st.cache| >= limits.maxSize ==> forall k :: k in order ==> k in st.cache
  {
    if |st.cache| >= limits.maxSize then Evict(st, order) else st
  }

  ghost function Request<A>(limits: Limits, st: Store<A>, op: Op<A>): (r: (Store<A>, Option<A>))
    requires op.Get? && Legal(limits, st, op)
  {
    if Hit(limits, st, op.key, op.now) then
      (Touched(st, op.key, op.now), Some(st.cache[op.key].agent))
    else
      var missed := Missed(st, op.key);
      if op.created.None? then (missed, None)
      else
        var room := WithRoom(limits, missed, op.order);
        var ent := CachedAgent(op.created.value, op.now, op.now, 1);
        (room.(cache := room.cache[op.key := ent]), op.created)
  }

  lemma WhenMissed<A>(limits: Limits, st: Store<A>, op: Op<A>)
    requires op.Get? && !Hit(limits, st, op.key, op.now) && IsOrder(op.order, Missed(st, op.key).cache.Keys)
    requires op.created.Some? && |Missed(st, op.key).cache| >= limits.maxSize ==>
               Scan(Missed(st, op.key).cache, op.order) != ""
    ensures var missed := Missed(st, op.key);
            && Legal(limits, st, op)
            && Request(limits, st, op) ==
               match op.created
               case None => (missed, None)
               case Some(agent) =>
                 var room := WithRoom(limits, missed, op.order);
                 (room.(cache := room.cache[op.key := CachedAgent(agent, op.now, op.now, 1)]), op.created)
  {
    assert Missed(st, op.key).cache.Keys == Evictable(st, op.key);
  }

  predicate Idle<A>(limits: Limits, ent: CachedAgent<A>, now: int) {
    now - ent.lastUsed > limits.idleSec * NANOS_PER_SECOND
  }

  function IdleKeys<A>(limits: Limits, st: Store<A>, now: int): set<string> {
    set k | k in st.cache && Idle(limits, st.cache[k], now)
  }

  ghost function Apply<A>(limits: Limits, st: Store<A>, op: Op<A>): Store<A>
    requires Legal(limits, st, op)
  {
    match op
    case Get(_, _, _, _) => Request(limits, st, op).0
    case Remove(key) => st.(cache := st.cache - {key})
    case Clear => st.(cache := map[])
    case CleanupIdle(now) => st.(cache := st.cache - IdleKeys(limits, st, now))
  }

  // ---------------------------------------------------------------- the eviction scan

  /** Without the empty key the scan finds a least recently used entry. */
  lemma {:induction false} ScanFindsOldest<A>(cache: map<string, CachedAgent<A>>, order: seq<string>)
    requires forall k :: k in order ==> k in cache
    requires "" !in order && order != []
    ensures Scan(cache, order) in order
    ensures forall k :: k in order ==> cache[Scan(cache, order)].lastUsed <= cache[k].lastUsed
  {
    var before := order[..|order| - 1];
    if before != [] {
      ScanFindsOldest(cache, before);
      assert forall k :: k in order ==> k in before || k == order[|order| - 1];
    }
  }

  /** Exactly when a turn of the eviction loop removes nothing: the empty key is scanned last and was
      used strictly before every other entry.  */
  lemma {:induction false} EvictionStalls<A>(cache: map<string, CachedAgent<A>>, order: seq<string>)
    requires IsOrder(order, cache.Keys) && cache != map[]
    ensures Scan(cache, order) == "" <==>
              && order[|order| - 1] == ""
              && forall k :: k in cache && k != "" ==> cache[""].lastUsed < cache[k].lastUsed
  {
    assert order != [];
    var last, before := order[|order| - 1], order[..|order| - 1];
    assert forall k :: k in order <==> k in before || k == last;
    if last == "" {
      assert "" !in before;
      if before != [] {
        ScanFindsOldest(cache, before);
        assert Scan(cache, before) in cache;
      }
    }
  }

  /** The empty key, if it is there, is not strictly the oldest. */
  predicate EmptyKeyIsYounger<A>(cache: map<string, CachedAgent<A>>) {
    "" in cache ==> exists k :: k in cache && k != "" && cache[k].lastUsed <= cache[""].lastUsed
  }

  /** The scan ends with a least recently used key. */
  predicate EndsWithOldest<A>(cache: map<string, CachedAgent<A>>, order: seq<string>)
    requires forall k :: k in order ==> k in cache
  {
    var oldest := Scan(cache, order);
    oldest != "" && forall k :: k in order ==> cache[oldest].lastUsed <= cache[k].lastUsed
  }

  lemma {:induction false} PrefixFindsOldest<A>(cache: map<string, CachedAgent<A>>, order: seq<string>)
    requires order != [] && (forall k :: k in order ==> k in cache)
    requires forall i, j :: 0 <= i < j < |order| ==> order[i] != order[j]
    ensures EndsWithOldest(cache, order) <==>
            ("" in order ==> exists k :: k in order && k != "" && cache[k].lastUsed <= cache[""].lastUsed)
  {
    var last, before := order[|order| - 1], order[..|order| - 1];
    assert forall k :: k in order <==> k in before || k == last;
    if "" !in before {
      if before != [] {
        ScanFindsOldest(cache, before);
      }
    } else {
      PrefixFindsOldest(cache, before);
    }
  }

  /** Whatever the order, an eviction removes a least recently used entry exactly if the empty key is
      not strictly the oldest.  */
  lemma EvictionFindsOldest<A>(cache: map<string, CachedAgent<A>>, order: seq<string>)
    requires IsOrder(order, cache.Keys) && cache != map[]
    ensures EndsWithOldest(cache, order) <==> EmptyKeyIsYounger(cache)
  {
    var k :| k in cache;
    PrefixFindsOldest(cache, order);
  }

  /** Scanned last, a strictly oldest empty key wastes the turn. */
  lemma WastedTurn<A>(cache: map<string, CachedAgent<A>>) returns (order: seq<string>)
    requires !EmptyKeyIsYounger(cache)
    ensures IsOrder(order, cache.Keys) && Scan(cache, order) == ""
  {
    hide Scan;
    var others := SomeOrder(cache.Keys - {""});
    order := others + [""];
    assert order[|order| - 1] == "";
    EvictionStalls(cache, order);
  }

  /** Scanned before some other key, the empty key never wastes the turn. */
  lemma UsefulTurn<A>(cache: map<string, CachedAgent<A>>) returns (order: seq<string>)
    requires cache != map[] && cache.Keys != {""}
    ensures IsOrder(order, cache.Keys) && Scan(cache, order) != ""
  {
    hide Scan;
    var k :| k in cache && k != "";
    var others := SomeOrder(cache.Keys - {k});
    order := others + [k];
    assert order[|order| - 1] == k;
    EvictionStalls(cache, order);
  }

  /** A turn of the eviction loop can be wasted on some order exactly if the empty key is strictly
      the oldest, and is wasted on every order exactly if it is the only key.  */
  lemma StallsDependOnOrder<A>(cache: map<string, CachedAgent<A>>)
    requires cache != map[]
    ensures (exists order :: IsOrder(order, cache.Keys) && Scan(cache, order) == "") <==> !EmptyKeyIsYounger(cache)
    ensures (forall order :: IsOrder(order, cache.Keys) ==> Scan(cache, order) == "") <==> cache.Keys == {""}
  {
    hide Scan;
    forall order | IsOrder(order, cache.Keys)
      ensures Scan(cache, order) == "" ==> !EmptyKeyIsYounger(cache)
      ensures cache.Keys == {""} ==> Scan(cache, order) == ""
    {
      EvictionStalls(cache, order);
    }
    if !EmptyKeyIsYounger(cache) {
      var order := WastedTurn(cache);
    }
    if cache.Keys != {""} {
      var order := UsefulTurn(cache);
    }
  }

  /** When it is strictly the oldest and not scanned last, the scan forgets what it has seen: here it
      settles for the most recently used key of all.  */
  lemma EmptyKeyMisleadsEviction<A>(agent: A)
    ensures var cache := map["a" := CachedAgent(agent, 0, 2, 1), "" := CachedAgent(agent, 0, 1, 1),
                             "b" := CachedAgent(agent, 0, 3, 1)];
            Scan(cache, ["a", "", "b"]) == "b"
  {
    var cache := map["a" := CachedAgent(agent, 0, 2, 1), "" := CachedAgent(agent, 0, 1, 1),
                     "b" := CachedAgent(agent, 0, 3, 1)];
    var order := ["a", "", "b"];
    assert order[..2] == ["a", ""] && order[..2][..1] == ["a"] && order[..2][..1][..0] == [];
    assert Scan(cache, order[..2][..1]) == "a";
    assert Scan(cache, order[..2]) == "";
  }

  // ---------------------------------------------------------------- traces

  ghost predicate LegalTrace<A>(limits: Limits, ops: seq<Op<A>>)
    decreases |ops|, 0
  {
    ops == [] ||
    var before := ops[..|ops| - 1];
    LegalTrace(limits, before) && Legal(limits, Run(limits, before), ops[|ops| - 1])
  }

  /** The store after a trace that starts from an empty cache. */
  ghost function Run<A>(limits: Limits, ops: seq<Op<A>>): Store<A>
    requires LegalTrace(limits, ops)
    decreases |ops|, 1
  {
    if ops == [] then Store(map[], 0, 0, 0)
    else Apply(limits, Run(limits, ops[..|ops| - 1]), ops[|ops| - 1])
  }

  lemma {:induction false} SizeAfterRemoval<A>(m: map<string, A>, ks: set<string>)
    ensures |m - ks| == |m| - |m.Keys * ks|
  {
    assert (m - ks).Keys == m.Keys - ks;
    assert m.Keys == (m.Keys - ks) + (m.Keys * ks);
  }

  /** What one eviction does to a bounded, full store. */
  lemma EvictMakesRoom<A>(st: Store<A>, order: seq<string>)
    requires IsOrder(order, st.cache.Keys) && Scan(st.cache, order) != ""
    ensures Scan(st.cache, order) in st.cache
    ensures |Evict(st, order).cache| == |st.cache| - 1
    ensures Evict(st, order).evictions == st.evictions + 1
  {
    var oldest := Scan(st.cache, order);
    SizeAfterRemoval(st.cache, {oldest});
    assert st.cache.Keys * {oldest} == {oldest};
  }

  lemma SizeAfterInsert<A>(m: map<string, A>, k: string, v: A)
    ensures |m[k := v]| == if k in m then |m| else |m| + 1
  {
    assert m[k := v].Keys == m.Keys + {k};
    if k in m {
      assert m.Keys + {k} == m.Keys;
    }
  }

  lemma MissedIsBounded<A>(limits: Limits, st: Store<A>, key: string)
    requires Bounded(limits, st)
    ensures Bounded(limits, Missed(st, key)) && Missed(st, key).cache.Keys == Evictable(st, key)
  {
    SizeAfterRemoval(st.cache, {key});
  }

  /** A request that misses: at most one eviction makes room, and the new entry takes it. */
  lemma MissKeepsBound<A>(limits: Limits, st: Store<A>, op: Op<A>)
    requires op.Get? && Legal(limits, st, op) && Bounded(limits, st)
    requires !Hit(limits, st, op.key, op.now)
    ensures Bounded(limits, Request(limits, st, op).0)
    ensures var st' := Request(limits, st, op).0;
            && st'.hits + st'.misses == st.hits + st.misses + (if op.key in st.cache then 2 else 1)
            && |st'.cache| + st'.evictions + (if op.key in st.cache then 1 else 0)
               == |st.cache| + st.evictions + (if op.created.Some? then 1 else 0)
  {
    hide Scan;
    var kept := st.cache - {op.key};
    assert kept.Keys == Evictable(st, op.key);
    SizeAfterRemoval(st.cache, {op.key});
    assert st.cache.Keys * {op.key} == if op.key in st.cache then {op.key} else {};
    if op.created.Some? {
      var missed := Missed(st, op.key);
      if |kept| >= limits.maxSize {
        EvictMakesRoom(missed, op.order);
      }
      var room := WithRoom(limits, missed, op.order);
      SizeAfterInsert(room.cache, op.key, CachedAgent(op.created.value, op.now, op.now, 1));
    }
  }

  lemma HitKeepsBound<A>(limits: Limits, st: Store<A>, op: Op<A>)
    requires op.Get? && Legal(limits, st, op) && Bounded(limits, st)
    requires Hit(limits, st, op.key, op.now)
    ensures var st' := Request(limits, st, op).0;
            && Bounded(limits, st')
            && st'.hits + st'.misses == st.hits + st.misses + 1 && st'.evictions == st.evictions
            && st'.cache.Keys == st.cache.Keys && |st'.cache| == |st.cache|
  {
    var ent := st.cache[op.key];
    SizeAfterInsert(st.cache, op.key, ent.(lastUsed := op.now, useCount := ent.useCount + 1));
  }

  // ---------------------------------------------------------------- accounting

  /** What happened over a trace, counted from the outside. */
  datatype Ledger = Ledger(calls: nat, expiries: nat, inserts: nat, removed: nat, idled: nat, cleared: nat)

  ghost function Entry<A>(limits: Limits, st: Store<A>, op: Op<A>): Ledger {
    match op
    case Get(key, now, created, _) =>
      var hit := Hit(limits, st, key, now);
      Ledger(1, if key in st.cache && !hit then 1 else 0, if !hit && created.Some? then 1 else 0, 0, 0, 0)
    case Remove(key) => Ledger(0, 0, 0, if key in st.cache then 1 else 0, 0, 0)
    case Clear => Ledger(0, 0, 0, 0, 0, |st.cache|)
    case CleanupIdle(now) => Ledger(0, 0, 0, 0, |IdleKeys(limits, st, now)|, 0)
  }

  ghost function Total<A>(limits: Limits, ops: seq<Op<A>>): Ledger
    requires LegalTrace(limits, ops)
  {
    if ops == [] then Ledger(0, 0, 0, 0, 0, 0)
    else
      var before := ops[..|ops| - 1];
      var l, e := Total(limits, before), Entry(limits, Run(limits, before), ops[|ops| - 1]);
      Ledger(l.calls + e.calls, l.expiries + e.expiries, l.inserts + e.inserts,
             l.removed + e.removed, l.idled + e.idled, l.cleared + e.cleared)
  }

  lemma RequestIsBooked<A>(limits: Limits, st: Store<A>, op: Op<A>)
    requires Bounded(limits, st) && Legal(limits, st, op) && op.Get?
    ensures Bounded(limits, Apply(limits, st, op))
    ensures var st', e := Apply(limits, st, op), Entry(limits, st, op);
            && st'.hits + st'.misses == st.hits + st.misses + e.calls + e.expiries
            && |st'.cache| + st'.evictions + e.expiries == |st.cache| + st.evictions + e.inserts
  {
    hide Request, Legal, Scan;
    if Hit(limits, st, op.key, op.now) {
      HitKeepsBound(limits, st, op);
    } else {
      MissKeepsBound(limits, st, op);
    }
  }

  /** One operation on a bounded store keeps it bounded and changes counters and size as it is booked. */
  lemma OpIsBooked<A>(limits: Limits, st: Store<A>, op: Op<A>)
    requires Bounded(limits, st) && Legal(limits, st, op)
    ensures Bounded(limits, Apply(limits, st, op))
    ensures var st', e := Apply(limits, st, op), Entry(limits, st, op);
            && st'.hits + st'.misses == st.hits + st.misses + e.calls + e.expiries
            && |st'.cache| + st'.evictions + e.expiries + e.removed + e.idled + e.cleared
               == |st.cache| + st.evictions + e.inserts
  {
    hide Request, Legal, Scan, Hit;
    match op
    case Get(_, _, _, _) => RequestIsBooked(limits, st, op);
    case Remove(key) =>
      SizeAfterRemoval(st.cache, {key});
      assert st.cache.Keys * {key} == if key in st.cache then {key} else {};
    case Clear =>
    case CleanupIdle(now) =>
      var idle := IdleKeys(limits, st, now);
      SizeAfterRemoval(st.cache, idle);
      assert st.cache.Keys * idle == idle;
  }

  /** Over every trace the cache stays within its size, every call is a hit or a miss (an expiry
      being one extra miss), and no entry appears or disappears unaccounted for.  */
  lemma {:induction false} Accounting<A>(limits: Limits, ops: seq<Op<A>>)
    requires 1 <= limits.maxSize && LegalTrace(limits, ops)
    ensures Bounded(limits, Run(limits, ops))
    ensures var st, l := Run(limits, ops), Total(limits, ops);
            && st.hits + st.misses == l.calls + l.expiries
            && |st.cache| + st.evictions + l.expiries + l.removed + l.idled + l.cleared == l.inserts
  {
    if ops != [] {
      var before := ops[..|ops| - 1];
      Accounting(limits, before);
      OpIsBooked(limits, Run(limits, before), ops[|ops| - 1]);
    }
  }

  // ---------------------------------------------------------------- provenance

  /** Request `i` of the trace made `agent` for `key` at `at`. */
  ghost predicate MadeBy<A>(ops: seq<Op<A>>, i: nat, key: string, agent: A, at: int) {
    i < |ops| && ops[i].Get? && ops[i].key == key && ops[i].created == Some(agent) && ops[i].now == at
  }

  /** The requests for a key. */
  function RequestsFor<A>(ops: seq<Op<A>>, key: string): nat {
    if ops == [] then 0
    else RequestsFor(ops[..|ops| - 1], key) + if ops[|ops| - 1].Get? && ops[|ops| - 1].key == key then 1 else 0
  }

  lemma RequestsSnoc<A>(ops: seq<Op<A>>, i: nat, key: string)
    requires i < |ops|
    ensures RequestsFor(ops[i..], key) == RequestsFor(ops[..|ops| - 1][i..], key)
                                          + if ops[|ops| - 1].Get? && ops[|ops| - 1].key == key then 1 else 0
  {
    assert ops[i..][..|ops[i..]| - 1] == ops[..|ops| - 1][i..];
  }

  /** What an entry says of the request that made it, and of those that have used it since. */
  ghost predicate Tells<A>(ops: seq<Op<A>>, i: nat, key: string, ent: CachedAgent<A>) {
    && MadeBy(ops, i, key, ent.agent, ent.createdAt)
    && ent.useCount == RequestsFor(ops[i..], key)
  }

  lemma NewEntryTells<A>(ops: seq<Op<A>>, key: string, agent: A)
    requires ops != [] && ops[|ops| - 1].Get? && MadeBy(ops, |ops| - 1, key, agent, ops[|ops| - 1].now)
    ensures Tells(ops, |ops| - 1, key, CachedAgent(agent, ops[|ops| - 1].now, ops[|ops| - 1].now, 1))
  {
    var last := ops[|ops| - 1..];
    assert last == [ops[|ops| - 1]] && last[..0] == [];
  }

  lemma OldEntryTells<A>(ops: seq<Op<A>>, i: nat, key: string, ent: CachedAgent<A>, ent': CachedAgent<A>)
    requires ops != [] && Tells(ops[..|ops| - 1], i, key, ent)
    requires ent'.agent == ent.agent && ent'.createdAt == ent.createdAt
    requires var op := ops[|ops| - 1];
             ent'.useCount == ent.useCount + if op.Get? && op.key == key then 1 else 0
    ensures Tells(ops, i, key, ent')
  {
    RequestsSnoc(ops, i, key);
  }

  lemma {:induction false} EntriesWereMade<A>(limits: Limits, ops: seq<Op<A>>, key: string) returns (i: nat)
    requires LegalTrace(limits, ops) && key in Run(limits, ops).cache
    ensures Tells(ops, i, key, Run(limits, ops).cache[key])
  {
    hide Tells, Scan;
    var before, op := ops[..|ops| - 1], ops[|ops| - 1];
    var st := Run(limits, before);
    if key in st.cache && (op.Get? && op.key == key ==> Hit(limits, st, key, op.now)) {
      i := EntriesWereMade(limits, before, key);
      OldEntryTells(ops, i, key, st.cache[key], Run(limits, ops).cache[key]);
    } else {
      i := |ops| - 1;
      NewEntryTells(ops, key, op.created.value);
    }
  }

  /** An entry stays as it is until its own key is asked for. */
  lemma OpOnEntry<A>(limits: Limits, st: Store<A>, op: Op<A>, key: string)
    requires Legal(limits, st, op) && key in Apply(limits, st, op).cache
    ensures var ent := Apply(limits, st, op).cache[key];
            if op.Get? && op.key == key then ent.lastUsed == op.now else key in st.cache && ent == st.cache[key]
  {
    hide Scan;
  }

  /** The last request for a key. */
  ghost predicate LastRequest<A>(ops: seq<Op<A>>, i: nat, key: string) {
    && i < |ops| && ops[i].Get? && ops[i].key == key
    && forall j :: i < j < |ops| ==> !(ops[j].Get? && ops[j].key == key)
  }

  lemma {:induction false} EntriesWereUsed<A>(limits: Limits, ops: seq<Op<A>>, key: string) returns (i: nat)
    requires LegalTrace(limits, ops) && key in Run(limits, ops).cache
    ensures LastRequest(ops, i, key) && Run(limits, ops).cache[key].lastUsed == ops[i].now
  {
    hide Apply, Legal;
    var before, op := ops[..|ops| - 1], ops[|ops| - 1];
    OpOnEntry(limits, Run(limits, before), op, key);
    if op.Get? && op.key == key {
      i := |ops| - 1;
    } else {
      i := EntriesWereUsed(limits, before, key);
    }
  }

  /** A request is answered from the cache exactly if the entry was made at most the TTL ago: then the
      very agent made for the key is returned, and nothing is evicted.  Otherwise the request misses,
      and what the factory makes is returned and cached.  */
  lemma FreshEntryIsReturned<A>(limits: Limits, ops: seq<Op<A>>, op: Op<A>) returns (i: nat)
    requires op.Get? && LegalTrace(limits, ops) && Legal(limits, Run(limits, ops), op)
    requires op.key in Run(limits, ops).cache
    ensures var st, (st', agent) := Run(limits, ops), Request(limits, Run(limits, ops), op);
            && MadeBy(ops, i, op.key, st.cache[op.key].agent, st.cache[op.key].createdAt)
            && (op.now - ops[i].now <= limits.ttlSec * NANOS_PER_SECOND ==>
                  && agent == ops[i].created == Some(st.cache[op.key].agent)
                  && st'.hits == st.hits + 1 && st'.misses == st.misses && st'.evictions == st.evictions
                  && st'.cache.Keys == st.cache.Keys && st'.cache[op.key].agent == st.cache[op.key].agent)
            && (op.now - ops[i].now > limits.ttlSec * NANOS_PER_SECOND ==>
                  && agent == op.created && st'.hits == st.hits && st'.misses == st.misses + 2
                  && (op.key in st'.cache <==> agent.Some?))
  {
    hide Scan;
    i := EntriesWereMade(limits, ops, op.key);
  }

  /** A request for a key that is not cached misses once, and what the factory makes is returned and cached. */
  lemma MissingEntryIsMade<A>(limits: Limits, st: Store<A>, op: Op<A>)
    requires op.Get? && Legal(limits, st, op) && op.key !in st.cache
    ensures var (st', agent) := Request(limits, st, op);
            && agent == op.created && st'.hits == st.hits && st'.misses == st.misses + 1
            && (op.key in st'.cache <==> agent.Some?)
            && (agent.Some? ==> st'.cache[op.key] == CachedAgent(agent.value, op.now, op.now, 1))
  {
    hide Scan;
    assert st.cache - {op.key} == st.cache;
  }

  /** A cleanup drops an entry exactly if the last request for it was longer ago than allowed, and leaves
      the others as they are.  */
  lemma CleanupDropsIdle<A>(limits: Limits, ops: seq<Op<A>>, now: int, key: string) returns (i: nat)
    requires LegalTrace(limits, ops) && key in Run(limits, ops).cache
    ensures LastRequest(ops, i, key)
    ensures var st, st' := Run(limits, ops), Apply(limits, Run(limits, ops), Op<A>.CleanupIdle(now));
            && (key in st'.cache <==> now - ops[i].now <= limits.idleSec * NANOS_PER_SECOND)
            && (key in st'.cache ==> st'.cache[key] == st.cache[key])
  {
    i := EntriesWereUsed(limits, ops, key);
  }

  /** Whatever a request returns was made for its own key, at most the TTL ago. */
  lemma ReturnedAgentIsFresh<A>(limits: Limits, ops: seq<Op<A>>, op: Op<A>) returns (i: nat, at: int)
    requires op.Get? && LegalTrace(limits, ops) && Legal(limits, Run(limits, ops), op)
    requires Request(limits, Run(limits, ops), op).1.Some?
    ensures MadeBy(ops + [op], i, op.key, Request(limits, Run(limits, ops), op).1.value, at)
    ensures op.now - at <= limits.ttlSec * NANOS_PER_SECOND
  {
    var st := Run(limits, ops);
    if Hit(limits, st, op.key, op.now) {
      i := EntriesWereMade(limits, ops, op.key);
      at := st.cache[op.key].createdAt;
    } else {
      i, at := |ops|, op.now;
    }
  }

  // ---------------------------------------------------------------- least recently used

  ghost function Asks<A>(ops: seq<Op<A>>): (asks: seq<Ask>)
    requires forall i :: 0 <= i < |ops| ==> ops[i].Get?
    ensures |asks| == |ops|
    ensures forall i :: 0 <= i < |ops| ==> asks[i] == Ask(ops[i].key, ops[i].now)
  {
    seq(|ops|, i requires 0 <= i < |ops| => Ask(ops[i].key, ops[i].now))
  }

  /** A trace of successful requests for proper names, at strictly increasing instants, with no expiry. */
  ghost predicate Steady<A>(limits: Limits, ops: seq<Op<A>>) {
    && LegalTrace(limits, ops)
    && (forall i :: 0 <= i < |ops| ==> ops[i].Get? && ops[i].created.Some? && ops[i].key != "")
    && (forall i, j :: 0 <= i < j < |ops| ==> ops[i].now < ops[j].now)
    && NoExpiry(limits, ops)
  }

  ghost predicate NoExpiry<A>(limits: Limits, ops: seq<Op<A>>)
    requires LegalTrace(limits, ops)
    requires forall i :: 0 <= i < |ops| ==> ops[i].Get?
  {
    ops == [] ||
    var before, op := ops[..|ops| - 1], ops[|ops| - 1];
    var st := Run(limits, before);
    && NoExpiry(limits, before)
    && (op.key in st.cache ==> op.now - st.cache[op.key].createdAt <= limits.ttlSec * NANOS_PER_SECOND)
  }

  /** Nothing expires in a trace in which no two requests for a key are further apart than the TTL. */
  lemma {:induction false} CloseRequestsDoNotExpire<A>(limits: Limits, ops: seq<Op<A>>)
    requires LegalTrace(limits, ops) && forall i :: 0 <= i < |ops| ==> ops[i].Get?
    requires forall i, j :: 0 <= i < j < |ops| && ops[i].key == ops[j].key ==>
                              ops[j].now - ops[i].now <= limits.ttlSec * NANOS_PER_SECOND
    ensures NoExpiry(limits, ops)
  {
    if ops != [] {
      var before, op := ops[..|ops| - 1], ops[|ops| - 1];
      CloseRequestsDoNotExpire(limits, before);
      if op.key in Run(limits, before).cache {
        var i := EntriesWereMade(limits, before, op.key);
      }
    }
  }

  /** The cache holds the keys of the window, each marked with the time of its last request. */
  ghost predicate Mirrors<A>(cache: map<string, CachedAgent<A>>, asks: seq<Ask>, w: nat)
    requires w <= |asks|
  {
    && cache.Keys == Keys(asks[w..])
    && forall k, p: nat :: k in cache && IsLast(asks, k, p) ==> cache[k].lastUsed == asks[p].now
  }

  /** The least recently used key of a mirrored window is the one whose last request is earliest:
      the keys that remain without it are those requested after it.  */
  lemma OldestIsLeastRecent<A>(cache: map<string, CachedAgent<A>>, asks: seq<Ask>, w: nat, victim: string)
    returns (p: nat)
    requires w <= |asks| && Mirrors(cache, asks, w) && Increasing(asks)
    requires victim in cache && forall k :: k in cache ==> cache[victim].lastUsed <= cache[k].lastUsed
    ensures w <= p < |asks| && asks[p].key == victim
    ensures KeysFrom(asks, p + 1) == KeysFrom(asks, w) - {victim}
  {
    p := LastExists(asks, victim, w);
    forall k ensures k in Keys(asks[p + 1..]) <==> k in Keys(asks[w..]) && k != victim {
      KeysOfSuffix(asks, w, k);
      KeysOfSuffix(asks, p + 1, k);
      if k in cache && k != victim {
        var q := LastExists(asks, k, w);
        assert asks[p].now <= asks[q].now;
      }
    }
  }

  /** What a request does to the set of cached keys, and which key it drops. */
  lemma NextKeys<A>(limits: Limits, st: Store<A>, op: Op<A>) returns (victim: Option<string>)
    requires op.Get? && op.created.Some? && Legal(limits, st, op) && Bounded(limits, st)
    requires "" !in st.cache && (op.key in st.cache ==> Hit(limits, st, op.key, op.now))
    ensures victim.Some? <==> op.key !in st.cache && |st.cache| == limits.maxSize
    ensures victim.None? ==> Request(limits, st, op).0.cache.Keys == st.cache.Keys + {op.key}
    ensures victim.Some? ==>
              && Request(limits, st, op).0.cache.Keys == st.cache.Keys - {victim.value} + {op.key}
              && victim.value in st.cache
              && forall k :: k in st.cache ==> st.cache[victim.value].lastUsed <= st.cache[k].lastUsed
  {
    hide Scan;
    victim := None;
    if op.key !in st.cache {
      assert st.cache - {op.key} == st.cache;
      if |st.cache| == limits.maxSize {
        EvictMakesRoom(Missed(st, op.key), op.order);
        assert op.order != [];
        ScanFindsOldest(st.cache, op.order);
        victim := Some(Scan(st.cache, op.order));
      }
    }
  }

  lemma MirroredKeys<A>(cache: map<string, CachedAgent<A>>, asks: seq<Ask>, w: nat)
    requires w <= |asks| && Mirrors(cache, asks, w)
    ensures cache.Keys == KeysFrom(asks, w) && |cache| == |KeysFrom(asks, w)|
  {
  }

  /** One request moves the window: not at all on a hit or while there is room, otherwise to just
      after the last request of the evicted key.  */
  lemma NextWindow<A>(cache: map<string, CachedAgent<A>>, maxSize: nat, asks: seq<Ask>, ask: Ask, w: nat,
                      victim: Option<string>) returns (w': nat)
    requires w <= |asks| && Increasing(asks) && IsWindow(asks, maxSize, w) && Mirrors(cache, asks, w)
    requires |cache| <= maxSize && (victim.Some? <==> ask.key !in cache && |cache| == maxSize)
    requires victim.Some? ==>
               victim.value in cache && forall k :: k in cache ==> cache[victim.value].lastUsed <= cache[k].lastUsed
    ensures w <= w' <= |asks|
    ensures IsWindow(asks + [ask], maxSize, w')
    ensures KeysFrom(asks + [ask], w') ==
            (if victim.Some? then cache.Keys - {victim.value} else cache.Keys) + {ask.key}
  {
    hide KeysFrom, IsWindow, Mirrors, Increasing;
    MirroredKeys(cache, asks, w);
    if victim.None? {
      w' := w;
      WindowStays(asks, ask, maxSize, w);
    } else {
      var p := OldestIsLeastRecent(cache, asks, w, victim.value);
      w' := p + 1;
      WindowMoves(asks, ask, maxSize, w, victim.value, p);
    }
  }

  /** The stamps after a request: its own key is stamped now, the others keep theirs. */
  lemma NextStamps<A>(limits: Limits, st: Store<A>, op: Op<A>)
    requires op.Get? && op.created.Some? && Legal(limits, st, op)
    ensures var cache := Request(limits, st, op).0.cache;
            && op.key in cache && cache[op.key].lastUsed == op.now
            && forall k :: k in cache && k != op.key ==> k in st.cache && cache[k] == st.cache[k]
  {
  }

  /** One request carries a mirrored window over to the longer trace. */
  lemma NextMirror<A>(limits: Limits, st: Store<A>, op: Op<A>, asks: seq<Ask>, w: nat) returns (w': nat)
    requires op.Get? && op.created.Some? && Legal(limits, st, op) && Bounded(limits, st)
    requires "" !in st.cache && (op.key in st.cache ==> Hit(limits, st, op.key, op.now))
    requires Increasing(asks) && IsWindow(asks, limits.maxSize, w) && Mirrors(st.cache, asks, w)
    ensures IsWindow(asks + [Ask(op.key, op.now)], limits.maxSize, w')
    ensures Mirrors(Request(limits, st, op).0.cache, asks + [Ask(op.key, op.now)], w')
  {
    var ask := Ask(op.key, op.now);
    var victim := NextKeys(limits, st, op);
    w' := NextWindow(st.cache, limits.maxSize, asks, ask, w, victim);
    NextStamps(limits, st, op);
    StampsMoved(st.cache, Request(limits, st, op).0.cache, asks, ask, w, w');
  }

  lemma SteadyStep<A>(limits: Limits, ops: seq<Op<A>>)
    requires ops != [] && Steady(limits, ops)
    ensures var before, op := ops[..|ops| - 1], ops[|ops| - 1];
            && Steady(limits, before) && Increasing(Asks(before))
            && Asks(ops) == Asks(before) + [Ask(op.key, op.now)]
            && (op.key in Run(limits, before).cache ==> Hit(limits, Run(limits, before), op.key, op.now))
  {
    hide Apply, Legal, Scan;
    var before, op := ops[..|ops| - 1], ops[|ops| - 1];
    assert forall i :: 0 <= i < |before| ==> before[i] == ops[i];
    assert LegalTrace(limits, before);
    assert Steady(limits, before);
    assert Asks(ops) == Asks(before) + [Ask(op.key, op.now)];
  }

  lemma {:induction false} WindowExists<A>(limits: Limits, ops: seq<Op<A>>) returns (w: nat)
    requires 1 <= limits.maxSize && Steady(limits, ops)
    ensures IsWindow(Asks(ops), limits.maxSize, w) && Mirrors(Run(limits, ops).cache, Asks(ops), w)
  {
    if ops == [] {
      w := 0;
    } else {
      SteadyStep(limits, ops);
      var before, op := ops[..|ops| - 1], ops[|ops| - 1];
      w := WindowExists(limits, before);
      Accounting(limits, before);
      KeysOfSuffix(Asks(before), w, "");
      w := NextMirror(limits, Run(limits, before), op, Asks(before), w);
    }
  }

  lemma StampsMoved<A>(cache: map<string, CachedAgent<A>>, cache': map<string, CachedAgent<A>>,
                       asks: seq<Ask>, ask: Ask, w: nat, w': nat)
    requires w <= w' <= |asks| && Mirrors(cache, asks, w)
    requires cache'.Keys == Keys((asks + [ask])[w'..])
    requires ask.key in cache' && cache'[ask.key].lastUsed == ask.now
    requires forall k :: k in cache' && k != ask.key ==> k in cache && cache'[k] == cache[k]
    ensures Mirrors(cache', asks + [ask], w')
  {
    var all := asks + [ask];
    forall k, p: nat | k in cache' && IsLast(all, k, p)
      ensures cache'[k].lastUsed == all[p].now
    {
      assert all[|asks|] == ask;
      if k != ask.key {
        assert forall j :: 0 <= j < |asks| ==> all[j] == asks[j];
        assert IsLast(asks, k, p);
      }
    }
  }

  /** LRU: after any steady trace the cached keys are the `maxSize` most recently requested ones. */
  lemma LeastRecentlyUsed<A>(limits: Limits, ops: seq<Op<A>>, key: string)
    requires 1 <= limits.maxSize && Steady(limits, ops)
    ensures key in Run(limits, ops).cache <==> AmongLatest(Asks(ops), key, limits.maxSize)
  {
    var w := WindowExists(limits, ops);
    WindowIsLatest(Asks(ops), limits.maxSize, w, key);
  }

  /** Inclusion: on the same requests a smaller cache never holds a key that a larger one lacks. */
  lemma SmallerCacheIsIncluded<A>(small: Limits, large: Limits, ops: seq<Op<A>>, ops': seq<Op<A>>, key: string)
    requires 1 <= small.maxSize <= large.maxSize
    requires Steady(small, ops) && Steady(large, ops') && Asks(ops) == Asks(ops')
    requires key in Run(small, ops).cache
    ensures key in Run(large, ops').cache
  {
    LeastRecentlyUsed(small, ops, key);
    LeastRecentlyUsed(large, ops', key);
    LatestIsMonotone(Asks(ops), key, small.maxSize, large.maxSize);
  }

  /** Whatever hits in the smaller cache hits in the larger. */
  lemma HitsCarryOver<A>(small: Limits, large: Limits, ops: seq<Op<A>>, ops': seq<Op<A>>)
    requires 1 <= small.maxSize <= large.maxSize && ops != []
    requires Steady(small, ops) && Steady(large, ops') && Asks(ops) == Asks(ops')
    ensures var last := |ops| - 1;
            && ops'[last].key == ops[last].key
            && Steady(small, ops[..last]) && Steady(large, ops'[..last]) && Asks(ops[..last]) == Asks(ops'[..last])
            && (Hit(small, Run(small, ops[..last]), ops[last].key, ops[last].now) ==>
                  Hit(large, Run(large, ops'[..last]), ops'[last].key, ops'[last].now))
  {
    hide Run;
    var last := |ops| - 1;
    SteadyStep(small, ops);
    SteadyStep(large, ops');
    assert Asks(ops)[last] == Asks(ops')[last];
    assert Asks(ops[..last]) == Asks(ops)[..last] && Asks(ops'[..last]) == Asks(ops')[..last];
    if ops[last].key in Run(small, ops[..last]).cache {
      SmallerCacheIsIncluded(small, large, ops[..last], ops'[..last], ops[last].key);
    }
  }

  /** On the same requests a larger cache has at least as many hits. */
  lemma {:induction false} LargerCacheHitsMore<A>(small: Limits, large: Limits, ops: seq<Op<A>>, ops': seq<Op<A>>)
    requires 1 <= small.maxSize <= large.maxSize
    requires Steady(small, ops) && Steady(large, ops') && Asks(ops) == Asks(ops')
    ensures Run(small, ops).hits <= Run(large, ops').hits
  {
    if ops != [] {
      var last := |ops| - 1;
      HitsCarryOver(small, large, ops, ops');
      LargerCacheHitsMore(small, large, ops[..last], ops'[..last]);
      RequestCountsHit(small, Run(small, ops[..last]), ops[last]);
      RequestCountsHit(large, Run(large, ops'[..last]), ops'[last]);
    }
  }

  lemma RequestCountsHit<A>(limits: Limits, st: Store<A>, op: Op<A>)
    requires op.Get? && Legal(limits, st, op)
    ensures Apply(limits, st, op).hits == st.hits + if Hit(limits, st, op.key, op.now) then 1 else 0
  {
    hide Scan;
  }

  // ---------------------------------------------------------------- the cache itself

  class AgentCache<A(0)> {
    var cache: map<string, CachedAgent<A>>
    var hits: nat
    var misses: nat
    var evictions: nat
    const limits: Limits

    constructor (maxSize: int, ttlSec: int, idleSec: int)
      ensures Contents() == Store(map[], 0, 0, 0)
      ensures limits.maxSize == if maxSize <= 0 then 10 else maxSize
      ensures limits.ttlSec == if ttlSec <= 0 then 3600 else ttlSec
      ensures limits.idleSec == if idleSec <= 0 then 600 else idleSec
      ensures Bounded(limits, Contents())
    {
      limits := Limits(if maxSize <= 0 then 10 else maxSize,
                       if ttlSec <= 0 then 3600 else ttlSec,
                       if idleSec <= 0 then 600 else idleSec);
      cache, hits, misses, evictions := map[], 0, 0, 0;
    }

    ghost function Contents(): Store<A>
      reads this
    {
      Store(cache, hits, misses, evictions)
    }

    method EvictOldest() returns (ghost order: seq<string>)
      modifies this`cache, this`evictions
      ensures IsOrder(order, old(cache).Keys)
      ensures Contents() == Evict(old(Contents()), order)
    {
      var oldestKey, oldestTime := "", 0;
      var keys := RangeOver(cache.Keys);
      order := keys;
      for i := 0 to |keys|
        invariant oldestKey == Scan(cache, keys[..i])
        invariant oldestKey != "" ==> oldestKey in cache && oldestTime == cache[oldestKey].lastUsed
      {
        var k := keys[i];
        assert keys[..i + 1][..i] == keys[..i];
        if oldestKey == "" || cache[k].lastUsed < oldestTime {
          oldestKey, oldestTime := k, cache[k].lastUsed;
        }
      }
      assert keys[..|keys|] == keys;
      if oldestKey != "" {
        cache := cache - {oldestKey};
        evictions := evictions + 1;
      }
    }

    /** The eviction loop may waste turns when the empty key is strictly the oldest, so the request is
        watched for `turns` of them: either it finishes, or it is still at its eviction.  */
    method GetOrCreate(key: string, now: int, created: Option<A>, turns: nat)
      returns (agent: Option<A>, finished: bool, ghost order: seq<string>)
      requires Bounded(limits, Contents())
      modifies this
      ensures Bounded(limits, Contents())
      ensures finished ==> Legal(limits, old(Contents()), Get(key, now, created, order))
      ensures finished ==> (Contents(), agent) == Request(limits, old(Contents()), Get(key, now, created, order))
      ensures !finished ==> Contents() == Missed(old(Contents()), key) && agent.None?
      ensures !finished && turns > 0 ==> |cache| >= limits.maxSize && !EmptyKeyIsYounger(cache)
    {
      hide WithRoom, Bounded, Scan, IsOrder, Missed, Touched, Hit;
      order := [];
      ghost var st := Contents();
      agent := Lookup(key, now);
      if agent.Some? {
        HitKeepsBound(limits, st, Get(key, now, created, order));
        return agent, true, order;
      }
      MissedIsBounded(limits, st, key);
      if created.None? {
        finished := true;
        order := SomeOrder(cache.Keys);
      } else {
        finished, order := MakeRoom(turns);
        if !finished {
          return None, false, order;
        }
        cache := cache[key := CachedAgent(created.value, now, now, 1)];
      }
      WhenMissed(limits, st, Get(key, now, created, order));
      MissKeepsBound(limits, st, Get(key, now, created, order));
      agent := created;
    }

    /** The part before the factory is called: a hit, or a miss that drops an expired entry. */
    method Lookup(key: string, now: int) returns (agent: Option<A>)
      modifies this
      ensures agent.Some? <==> Hit(limits, old(Contents()), key, now)
      ensures agent.Some? ==> agent == Some(old(cache)[key].agent) && Contents() == Touched(old(Contents()), key, now)
      ensures agent.None? ==> Contents() == Missed(old(Contents()), key)
    {
      if key in cache {
        var ent := cache[key];
        if now - ent.createdAt > limits.ttlSec * NANOS_PER_SECOND {
          cache := cache - {key};
          misses := misses + 1;
        } else {
          cache := cache[key := ent.(lastUsed := now, useCount := ent.useCount + 1)];
          hits := hits + 1;
          return Some(ent.agent);
        }
      }
      misses := misses + 1;
      return None;
    }

    /** The first `turns` turns of the eviction loop of `GetOrCreate`: at most one of them evicts, and
        it is the first one unless the empty key is strictly the oldest.  */
    method MakeRoom(turns: nat) returns (finished: bool, ghost order: seq<string>)
      requires Bounded(limits, Contents())
      modifies this`cache, this`evictions
      ensures finished ==> IsOrder(order, old(cache).Keys)
      ensures finished ==> |old(cache)| < limits.maxSize || Scan(old(cache), order) != ""
      ensures finished ==> Contents() == WithRoom(limits, old(Contents()), order)
      ensures !finished ==> Contents() == old(Contents()) && |cache| >= limits.maxSize
      ensures !finished && turns > 0 ==> !EmptyKeyIsYounger(cache)
    {
      ghost var st := Contents();
      order := SomeOrder(cache.Keys);
      var turn := 0;
      while |cache| >= limits.maxSize && turn < turns
        invariant IsOrder(order, st.cache.Keys)
        invariant Contents() == st ||
                  (|st.cache| >= limits.maxSize > |cache| &&
                   Scan(st.cache, order) != "" && Contents() == Evict(st, order))
        invariant Contents() == st && turn > 0 ==> !EmptyKeyIsYounger(cache)
        decreases turns - turn
      {
        order := EvictOldest();
        turn := turn + 1;
        if Scan(st.cache, order) != "" {
          EvictMakesRoom(st, order);
        } else {
          StallsDependOnOrder(st.cache);
        }
      }
      finished := |cache| < limits.maxSize;
    }

    method Remove(key: string) returns (found: bool)
      modifies this`cache
      ensures (found <==> key in old(cache)) && cache == old(cache) - {key}
      ensures Contents() == Apply(limits, old(Contents()), Op<A>.Remove(key))
    {
      found := key in cache;
      cache := cache - {key};
    }

    method Clear()
      modifies this`cache
      ensures cache == map[] && Contents() == Apply(limits, old(Contents()), Op<A>.Clear)
    {
      cache := map[];
    }

    method CleanupIdle(now: int) returns (n: nat)
      modifies this`cache
      ensures Contents() == Apply(limits, old(Contents()), Op<A>.CleanupIdle(now))
      ensures n == |old(cache)| - |cache|
    {
      n := 0;
      var remaining := cache.Keys;
      ghost var st, gone := Contents(), {};
      while remaining != {}
        invariant remaining <= st.cache.Keys && gone !! remaining && gone <= st.cache.Keys
        invariant forall k :: k in st.cache && k !in remaining ==> (k in gone <==> Idle(limits, st.cache[k], now))
        invariant cache == st.cache - gone && n == |gone|
        decreases |remaining|
      {
        var k :| k in remaining;
        assert cache[k] == st.cache[k];
        if now - cache[k].lastUsed > limits.idleSec * NANOS_PER_SECOND {
          cache := cache - {k};
          gone := gone + {k};
          n := n + 1;
        }
        remaining := remaining - {k};
      }
      assert gone == IdleKeys(limits, st, now);
      SizeAfterRemoval(st.cache, gone);
      assert st.cache.Keys * gone == gone;
    }
  }

  /** A Go map is ranged over in an unspecified order. */
  method RangeOver(keys: set<string>) returns (order: seq<string>)
    ensures IsOrder(order, keys)
  {
    order := [];
    var remaining := keys;
    while remaining != {}
      invariant remaining <= keys && IsOrder(order, keys - remaining)
      decreases |remaining|
    {
      var k :| k in remaining;
      remaining, order := remaining - {k}, order + [k];
    }
  }

  lemma {:induction false} SomeOrder(keys: set<string>) returns (order: seq<string>)
    ensures IsOrder(order, keys)
  {
    if keys == {} {
      order := [];
    } else {
      var k :| k in keys;
      order := SomeOrder(keys - {k});
      order := order + [k];
    }
  }
}
