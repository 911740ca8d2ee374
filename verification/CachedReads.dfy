/**
 Cached reads under concurrency, for any database and any cached value. A request resolves a value in three
 separate steps (cache get, database read, cache put); writers commit a change and drop a key, in any order.
 */
module CachedReads {
  import opened Clock
  import opened Options
  import opened TtlCache
  import opened TtlCacheLaws

  const MAX: nat := 4096

  /** What a database read gives: a value to cache, or one that is only answered. */
  datatype Lookup<+V> = Kept(value: V) | Passed(value: V)

  /** The tables behind a cache: cache keys, reads, commits, and the answer to a failed read, if any. */
  datatype Store<!T, !C, !Q, V> = Store(
    start: T,
    key: Q -> string,
    look: (T, Q) -> Lookup<V>,
    apply: (T, C) -> T,
    failed: Option<V>)

  /** Where a request is between its cache miss and its cache put. */
  datatype Pending<+Q, +V> = Missed(query: Q) | Read(query: Q, value: V)

  datatype System<+T, +Q, V> = System(table: T, cache: Data<V>, pending: map<nat, Pending<Q, V>>)

  /** One atomic step of one request (`who`) or of a writer. */
  datatype Action<+Q, +C> =
    | CacheGet(who: nat, query: Q, now: Time)
    | DbRead(who: nat, fails: bool)
    | CachePut(who: nat, now: Time)
    | Commit(change: C)
    | InvalidateCache(key: string)

  predicate MissedAt<T, Q, V>(s: System<T, Q, V>, who: nat) {
    who in s.pending && s.pending[who].Missed?
  }

  predicate ReadAt<T, Q, V>(s: System<T, Q, V>, who: nat) {
    who in s.pending && s.pending[who].Read?
  }

  /** The answer a step gives to its request, if it ends the request with one. */
  function Answer<T, C, Q, V>(db: Store<T, C, Q, V>, ttl: int, s: System<T, Q, V>, a: Action<Q, C>): Option<V> {
    match a
    case CacheGet(who, query, now) =>
      if who in s.pending then None else GetFresh(s.cache, db.key(query), ttl, now).hit
    case DbRead(who, fails) =>
      if !MissedAt(s, who) then None
      else if fails then db.failed
      else
        var found := db.look(s.table, s.pending[who].query);
        if found.Passed? then Some(found.value) else None
    case CachePut(who, now) =>
      if ReadAt(s, who) then Some(s.pending[who].value) else None
    case _ => None
  }

  function Next<T, C, Q, V>(db: Store<T, C, Q, V>, ttl: int, s: System<T, Q, V>, a: Action<Q, C>): System<T, Q, V> {
    match a
    case CacheGet(who, query, now) =>
      if who in s.pending then s   // this request is busy
      else
        var out := GetFresh(s.cache, db.key(query), ttl, now);
        s.(cache := out.data,
           pending := if out.hit.Some? then s.pending else s.pending[who := Missed(query)])
    case DbRead(who, fails) =>
      if !MissedAt(s, who) then s
      else
        var query := s.pending[who].query;
        var found := db.look(s.table, query);
        s.(pending := if !fails && found.Kept? then s.pending[who := Read(query, found.value)]
                      else s.pending - {who})
    case CachePut(who, now) =>
      if !ReadAt(s, who) then s
      else
        var p := s.pending[who];
        s.(cache := if ttl > 0 then Put(s.cache, MAX, db.key(p.query), p.value, now) else s.cache,
           pending := s.pending - {who})
    case Commit(change) =>
      s.(table := db.apply(s.table, change))
    case InvalidateCache(key) =>
      s.(cache := Invalidate(s.cache, key))
  }

  function After<T, C, Q, V>(db: Store<T, C, Q, V>, ttl: int, trace: seq<Action<Q, C>>): System<T, Q, V> {
    if trace == [] then System(db.start, [], map[])
    else Next(db, ttl, After(db, ttl, trace[..|trace| - 1]), trace[|trace| - 1])
  }

  lemma LastStep<T, C, Q, V>(db: Store<T, C, Q, V>, ttl: int, trace: seq<Action<Q, C>>)
    requires trace != []
    ensures After(db, ttl, trace) == Next(db, ttl, After(db, ttl, trace[..|trace| - 1]), trace[|trace| - 1])
  {
  }

  lemma AfterStep<T, C, Q, V>(db: Store<T, C, Q, V>, ttl: int, trace: seq<Action<Q, C>>, a: Action<Q, C>)
    ensures After(db, ttl, trace + [a]) == Next(db, ttl, After(db, ttl, trace), a)
  {
    assert (trace + [a])[..|trace|] == trace;
  }

  // ---------- where cached and pending values come from ----------

  lemma {:induction false} CacheIsDistinct<T, C, Q, V>(db: Store<T, C, Q, V>, ttl: int, trace: seq<Action<Q, C>>)
    ensures var cache := After(db, ttl, trace).cache; Distinct(cache) && |cache| <= MAX
  {
    if trace == [] {
    } else {
      var front, a := trace[..|trace| - 1], trace[|trace| - 1];
      CacheIsDistinct(db, ttl, front);
      hide Distinct, Put, GetFresh, Invalidate;
      NextCache(db, ttl, After(db, ttl, front), a);
    }
  }

  /** What one step leaves in the cache: old entries, or what a put just wrote. */
  lemma NextCache<T, C, Q, V>(db: Store<T, C, Q, V>, ttl: int, s: System<T, Q, V>, a: Action<Q, C>)
    requires Distinct(s.cache) && |s.cache| <= MAX
    ensures var s' := Next(db, ttl, s, a);
            && Distinct(s'.cache) && |s'.cache| <= MAX
            && (forall e <- s'.cache :: e in s.cache ||
                 (a.CachePut? && ReadAt(s, a.who)
                  && e == Entry(db.key(s.pending[a.who].query), s.pending[a.who].value, a.now)))
            && (a.InvalidateCache? ==> forall e <- s'.cache :: e.key != a.key)
  {
    hide Put, GetFresh, Invalidate;
    match a {
      case CacheGet(who, query, now) => StepFacts(MAX, s.cache, DoGet(db.key(query), ttl, now));
      case CachePut(who, now) =>
        if ReadAt(s, who) {
          StepFacts(MAX, s.cache, DoPut(db.key(s.pending[who].query), s.pending[who].value, now));
        }
      case InvalidateCache(key) => StepFacts(MAX, s.cache, DoInvalidate(key));
      case _ =>
    }
  }

  /** A request holding a value read it from the live table at an earlier step. */
  lemma {:induction false} PendingSource<T, C, Q, V>(db: Store<T, C, Q, V>, ttl: int, trace: seq<Action<Q, C>>,
                                                     who: nat) returns (r: nat)
    requires ReadAt(After(db, ttl, trace), who)
    ensures r < |trace| && trace[r] == DbRead(who, false)
    ensures var p := After(db, ttl, trace).pending[who];
            db.look(After(db, ttl, trace[..r]).table, p.query) == Kept(p.value)
  {
    var front, a := trace[..|trace| - 1], trace[|trace| - 1];
    var s := After(db, ttl, front);
    hide GetFresh, Put, Invalidate;
    if a == DbRead(who, false) && MissedAt(s, who) {
      r := |trace| - 1;
    } else {
      r := PendingSource(db, ttl, front, who);
      assert front[..r] == trace[..r];
    }
  }

  /** A cached value was put by a request at the entry's time stamp, and live when that request read it. */
  lemma {:induction false} EntrySource<T, C, Q, V>(db: Store<T, C, Q, V>, ttl: int, trace: seq<Action<Q, C>>,
                                                   e: Entry<V>) returns (r: nat, p: nat, query: Q)
    requires e in After(db, ttl, trace).cache
    ensures r < p < |trace| && trace[p].CachePut? && trace[p].now == e.stamp && trace[r] == DbRead(trace[p].who, false)
    ensures db.key(query) == e.key && db.look(After(db, ttl, trace[..r]).table, query) == Kept(e.value)
    ensures forall j | p < j < |trace| :: trace[j] != InvalidateCache(e.key)
  {
    hide Next, Distinct, After;
    EmptyAtStart(db, ttl);
    var front, a := trace[..|trace| - 1], trace[|trace| - 1];
    var s := After(db, ttl, front);
    LastStep(db, ttl, trace);
    CacheIsDistinct(db, ttl, front);
    NextCache(db, ttl, s, a);
    if e in s.cache {
      r, p, query := EntrySource(db, ttl, front, e);
      assert front[..r] == trace[..r];
    } else {
      p, query := |trace| - 1, s.pending[a.who].query;
      r := PendingSource(db, ttl, front, a.who);
      assert front[..r] == trace[..r];
    }
  }

  lemma EmptyAtStart<T, C, Q, V>(db: Store<T, C, Q, V>, ttl: int)
    ensures After(db, ttl, []).cache == []
  {
  }

  /**
   Bounded staleness under every interleaving: a value answered from the cache was live when some request
   read it, and that request put it at most `ttl` before the answer, after the last invalidate of its key.
   */
  lemma CachedAnswerIsRecent<T, C, Q, V>(db: Store<T, C, Q, V>, ttl: int, trace: seq<Action<Q, C>>, a: Action<Q, C>)
    returns (r: nat, p: nat, query: Q)
    requires a.CacheGet? && Answer(db, ttl, After(db, ttl, trace), a).Some?
    ensures r < p < |trace| && trace[p].CachePut? && trace[r] == DbRead(trace[p].who, false)
    ensures a.now - trace[p].now <= ttl as real && db.key(query) == db.key(a.query)
    ensures db.look(After(db, ttl, trace[..r]).table, query) == Kept(Answer(db, ttl, After(db, ttl, trace), a).value)
    ensures forall j | p < j < |trace| :: trace[j] != InvalidateCache(db.key(a.query))
  {
    var cache := After(db, ttl, trace).cache;
    var e := cache[Find(cache, db.key(a.query))];
    hide After, Next;
    r, p, query := EntrySource(db, ttl, trace, e);
  }

  /**
   Every other answer is what the request's own read found, or the answer to its failed read.
   */
  lemma UncachedAnswer<T, C, Q, V>(db: Store<T, C, Q, V>, ttl: int, trace: seq<Action<Q, C>>, a: Action<Q, C>)
    returns (r: nat)
    requires (a.DbRead? || a.CachePut?) && Answer(db, ttl, After(db, ttl, trace), a).Some?
    ensures r <= |trace| && (if a.DbRead? then r == |trace| else r < |trace| && trace[r] == DbRead(a.who, false))
    ensures a.who in After(db, ttl, trace).pending
    ensures var s, value := After(db, ttl, trace), Answer(db, ttl, After(db, ttl, trace), a).value;
            if a.DbRead? && a.fails then db.failed == Some(value)
            else db.look(After(db, ttl, trace[..r]).table, s.pending[a.who].query).value == value
  {
    if a.DbRead? {
      r := |trace|;
      assert trace[..r] == trace;
    } else {
      r := PendingSource(db, ttl, trace, a.who);
    }
  }
}
