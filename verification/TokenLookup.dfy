/** Token versions looked up through the cache, run without interruption. */
module TokenLookup {
  import opened Clock
  import opened Options
  import opened TokenVersions
  import opened TtlCache
  import opened TtlCacheLaws

  // ---------- token versions ----------

  /** `resolve_current_token_version` as one step: the cache afterwards and the answer. */
  function Resolve(max: nat, data: Data<int>, rows: Rows, user: string, ttl: int, asked: Time, put: Time)
    : (Data<int>, int)
  {
    var out := GetFresh(data, user, ttl, asked);
    if out.hit.Some? then (out.data, out.hit.value)
    else if user !in rows then (out.data, 0)
    else (if ttl > 0 then Put(out.data, max, user, rows[user], put) else out.data, rows[user])
  }

  method ResolveCurrentTokenVersion(cache: TtlLru<int>, rows: Rows, user: string, ttl: int, asked: Time, put: Time)
    returns (version: int)
    requires cache.Valid()
    modifies cache
    ensures cache.Valid()
    ensures (cache.data, version) == Resolve(cache.max, old(cache.data), rows, user, ttl, asked, put)
    ensures var hit := GetFresh(old(cache.data), user, ttl, asked).hit;
            version == if hit.Some? then hit.value else if user in rows then rows[user] else 0
  {
    hide Find, Without, Evicted;
    if ttl > 0 {
      var hit := cache.Get(user, ttl, asked);
      if hit.Some? {
        return hit.value;
      }
    }
    if user !in rows {
      return 0;
    }
    version := rows[user];
    if ttl > 0 {
      cache.PutNow(user, version, put);
    }
  }

  /** Requests and writers that are not interrupted: a writer commits and invalidates in one go. */
  datatype Atomic =
    | Ask(user: string, asked: Time, put: Time)
    | Write(user: string, row: Option<int>)

  datatype Store = Store(rows: Rows, data: Data<int>)

  function Perform(max: nat, ttl: int, s: Store, a: Atomic): Store {
    match a
    case Ask(user, asked, put) => s.(data := Resolve(max, s.data, s.rows, user, ttl, asked, put).0)
    case Write(user, row) =>
      Store(if row.Some? then s.rows[user := row.value] else s.rows - {user}, Invalidate(s.data, user))
  }

  function PerformAll(max: nat, ttl: int, actions: seq<Atomic>): Store {
    if actions == [] then Store(map[], [])
    else Perform(max, ttl, PerformAll(max, ttl, actions[..|actions| - 1]), actions[|actions| - 1])
  }

  /** Every cached version is the live one. */
  ghost predicate Coherent(max: nat, s: Store) {
    && Distinct(s.data) && |s.data| <= max
    && forall e <- s.data :: e.key in s.rows && s.rows[e.key] == e.value
  }

  lemma FoundIsLive(max: nat, s: Store, user: string)
    requires Coherent(max, s)
    ensures Resident(s.data, user) ==>
              user in s.rows && s.rows[user] == s.data[Find(s.data, user)].value
  {
    if Resident(s.data, user) {
      FoundAt(s.data, user);
      assert s.data[Find(s.data, user)] in s.data;
    }
  }

  lemma ResolveIsLive(max: nat, s: Store, user: string, ttl: int, asked: Time, put: Time)
    requires Coherent(max, s)
    ensures var (data, version) := Resolve(max, s.data, s.rows, user, ttl, asked, put);
            version == Live(s.rows, user) && Coherent(max, s.(data := data))
  {
    hide Find, Without, Evicted, Distinct;
    StepFacts(max, s.data, DoGet(user, ttl, asked));
    FoundIsLive(max, s, user);
    var out := GetFresh(s.data, user, ttl, asked);
    if user in s.rows {
      StepFacts(max, out.data, DoPut(user, s.rows[user], put));
    }
  }

  lemma {:induction false} AlwaysCoherent(max: nat, ttl: int, actions: seq<Atomic>)
    ensures Coherent(max, PerformAll(max, ttl, actions))
  {
    hide Resolve, Find, Without;
    if actions == [] {
    } else {
      var s, a := PerformAll(max, ttl, actions[..|actions| - 1]), actions[|actions| - 1];
      AlwaysCoherent(max, ttl, actions[..|actions| - 1]);
      match a {
        case Ask(user, asked, put) => ResolveIsLive(max, s, user, ttl, asked, put);
        case Write(user, row) => StepFacts(max, s.data, DoInvalidate(user));
      }
    }
  }

  /** Without interruptions every answer equals the live version, however long entries may live. */
  lemma AtomicAnswerIsLive(max: nat, ttl: int, actions: seq<Atomic>, user: string, asked: Time, put: Time)
    ensures var s := PerformAll(max, ttl, actions);
            Resolve(max, s.data, s.rows, user, ttl, asked, put).1 == Live(s.rows, user)
  {
    AlwaysCoherent(max, ttl, actions);
    ResolveIsLive(max, PerformAll(max, ttl, actions), user, ttl, asked, put);
  }

  /**
   What a lookup leaves behind: a version read from the database is the next answer for `ttl` seconds, and a
   missing row is not remembered.
   */
  lemma ResolveRemembers(max: nat, data: Data<int>, rows: Rows, user: string, ttl: int, asked: Time, put: Time,
                         later: Time)
    requires Distinct(data) && |data| <= max && max > 0 && GetFresh(data, user, ttl, asked).hit.None?
    ensures var after := Resolve(max, data, rows, user, ttl, asked, put).0;
            GetFresh(after, user, ttl, later).hit ==
              if user in rows && ttl > 0 && later - put <= ttl as real then Some(rows[user]) else None
    ensures ttl <= 0 ==> Resolve(max, data, rows, user, ttl, asked, put).0 == data
  {
    StepFacts(max, data, DoGet(user, ttl, asked));
    RemovedIsGone(max, data, DoGet(user, ttl, asked));
    hide Find, Without, Evicted, Distinct;
    if ttl > 0 && user in rows {
      PutIsHit(max, GetFresh(data, user, ttl, asked).data, user, rows[user], put, ttl, later);
    }
  }
}
