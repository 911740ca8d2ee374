/**
 Cached token versions under concurrency. Requests resolve a user's version through the cache;
 writers commit a new version and then invalidate.
 */
module TokenVersions {
  import opened CachedReads
  import opened Clock
  import opened Options
  import opened TtlCache

  type Rows = map<string, int>

  /** A new row for a user, or its deletion. */
  datatype Change = Change(user: string, row: Option<int>)

  type Event = Action<string, Change>
  type State = System<Rows, string, int>

  function KeyOf(user: string): string {
    user
  }

  /** A missing row answers 0 and is not cached. */
  function Look(rows: Rows, user: string): Lookup<int> {
    if user in rows then Kept(rows[user]) else Passed(0)
  }

  function Write(rows: Rows, c: Change): Rows {
    if c.row.Some? then rows[c.user := c.row.value] else rows - {c.user}
  }

  /** A failed read answers nothing: the exception ends the request. */
  const USERS: Store<Rows, Change, string, int> := Store(map[], KeyOf, Look, Write, None)

  function Live(rows: Rows, user: string): int {
    if user in rows then rows[user] else 0
  }

  /**
   Bounded staleness under every interleaving: a version answered from the cache was live when some
   request read it, and that request put it at most `ttl` before the answer.
   */
  lemma CachedVersionIsRecent(ttl: int, trace: seq<Event>, a: Event) returns (r: nat, p: nat)
    requires a.CacheGet? && Answer(USERS, ttl, After(USERS, ttl, trace), a).Some?
    ensures r < p < |trace| && trace[p].CachePut? && trace[r] == DbRead(trace[p].who, false)
    ensures a.now - trace[p].now <= ttl as real
    ensures var rows := After(USERS, ttl, trace[..r]).table;
            a.query in rows && rows[a.query] == Answer(USERS, ttl, After(USERS, ttl, trace), a).value
    ensures forall j | p < j < |trace| :: trace[j] != InvalidateCache(a.query)
  {
    hide After, Answer;
    var query;
    r, p, query := CachedAnswerIsRecent(USERS, ttl, trace, a);
  }

  // ---------- when a cached answer is the live version ----------

  predicate Commits(a: Event, user: string) {
    a.Commit? && a.change.user == user
  }

  /** The highest version committed for a user so far, or 0. */
  function Peak(trace: seq<Event>, user: string): nat {
    if trace == [] then 0
    else
      var front, a := Peak(trace[..|trace| - 1], user), trace[|trace| - 1];
      if Commits(a, user) && a.change.row.Some? && a.change.row.value > front then a.change.row.value else front
  }

  /** Every version written for a user is new: above all earlier ones. A deleted user has no version. */
  predicate Rising(trace: seq<Event>, user: string) {
    forall i | 0 <= i < |trace| && Commits(trace[i], user) && trace[i].change.row.Some? ::
      trace[i].change.row.value > Peak(trace[..i], user)
  }

  lemma RisingFront(trace: seq<Event>, user: string)
    requires trace != [] && Rising(trace, user)
    ensures Rising(trace[..|trace| - 1], user)
  {
    var front := trace[..|trace| - 1];
    forall i | 0 <= i < |front| && Commits(front[i], user) && front[i].change.row.Some?
      ensures front[i].change.row.value > Peak(front[..i], user)
    {
      assert front[..i] == trace[..i];
    }
  }

  /** The live version of a user is between 1 and the highest one written. */
  lemma {:induction false} LiveUpToPeak(ttl: int, trace: seq<Event>, user: string)
    requires Rising(trace, user)
    ensures var rows := After(USERS, ttl, trace).table;
            user in rows ==> 0 < rows[user] <= Peak(trace, user)
  {
    hide GetFresh, Put, Invalidate;
    if trace == [] {
    } else {
      RisingFront(trace, user);
      LiveUpToPeak(ttl, trace[..|trace| - 1], user);
    }
  }

  lemma NextRows(ttl: int, s: State, a: Event)
    ensures Next(USERS, ttl, s, a).table ==
            if !a.Commit? then s.table
            else if a.change.row.Some? then s.table[a.change.user := a.change.row.value] else s.table - {a.change.user}
  {
    hide GetFresh, Put, Invalidate;
  }

  lemma LastCommit(trace: seq<Event>, user: string)
    requires trace != [] && Rising(trace, user)
    ensures var front, a := trace[..|trace| - 1], trace[|trace| - 1];
            && Peak(trace, user) >= Peak(front, user)
            && (Commits(a, user) && a.change.row.Some? ==> a.change.row.value > Peak(front, user))
  {
  }

  /** Since step `r` the row of a user is as it was, or gone, or above all versions written before. */
  lemma {:induction false} RowSince(ttl: int, trace: seq<Event>, user: string, r: nat)
    requires r <= |trace| && Rising(trace, user)
    ensures var then', now := After(USERS, ttl, trace[..r]).table, After(USERS, ttl, trace).table;
            if forall j | r <= j < |trace| :: !Commits(trace[j], user)
            then (user in now <==> user in then') && (user in now ==> now[user] == then'[user])
            else user in now ==> now[user] > Peak(trace[..r], user)
    ensures Peak(trace[..r], user) <= Peak(trace, user)
  {
    hide Next, After, Rising, Peak;
    if r == |trace| {
      assert trace[..r] == trace;
    } else {
      var front, a := trace[..|trace| - 1], trace[|trace| - 1];
      LastStep(USERS, ttl, trace);
      LastCommit(trace, user);
      RisingFront(trace, user);
      RowSince(ttl, front, user, r);
      NextRows(ttl, After(USERS, ttl, front), a);
      assert front[..r] == trace[..r];
    }
  }

  /**
   A cached answer is the live version exactly when no commit of that user came after the read behind it;
   and since no invalidate of the user came after the put, every commit that makes the answer stale either
   has its invalidate still to come, or had it before the put.
   */
  lemma CachedAnswerIsLiveIff(ttl: int, trace: seq<Event>, a: Event) returns (r: nat, p: nat)
    requires a.CacheGet? && Answer(USERS, ttl, After(USERS, ttl, trace), a).Some? && Rising(trace, a.query)
    ensures r < p < |trace| && trace[p].CachePut? && trace[r] == DbRead(trace[p].who, false)
    ensures a.now - trace[p].now <= ttl as real
    ensures Answer(USERS, ttl, After(USERS, ttl, trace), a).value == Live(After(USERS, ttl, trace).table, a.query)
       <==> forall j | r <= j < |trace| :: !Commits(trace[j], a.query)
    ensures forall j | 0 <= j < |trace| && trace[j] == InvalidateCache(a.query) :: j < p
  {
    hide After, Next, Rising, Peak;
    r, p := CachedVersionIsRecent(ttl, trace, a);
    RowSince(ttl, trace, a.query, r);
    RisingPrefix(trace, a.query, r);
    LiveUpToPeak(ttl, trace[..r], a.query);
  }

  lemma RisingPrefix(trace: seq<Event>, user: string, r: nat)
    requires r <= |trace| && Rising(trace, user)
    ensures Rising(trace[..r], user)
  {
    hide Peak;
    forall i | 0 <= i < r && Commits(trace[i], user) && trace[i].change.row.Some?
      ensures trace[i].change.row.value > Peak(trace[..r][..i], user)
    {
      assert trace[..r][..i] == trace[..i];
    }
  }

  /** An answer that does not come from the cache was live at the request's own database read. */
  lemma UncachedVersion(ttl: int, trace: seq<Event>, a: Event) returns (r: nat)
    requires (a.DbRead? || a.CachePut?) && Answer(USERS, ttl, After(USERS, ttl, trace), a).Some?
    ensures r <= |trace| && (if a.DbRead? then r == |trace| else r < |trace| && trace[r] == DbRead(a.who, false))
    ensures a.who in After(USERS, ttl, trace).pending
    ensures Live(After(USERS, ttl, trace[..r]).table, After(USERS, ttl, trace).pending[a.who].query)
         == Answer(USERS, ttl, After(USERS, ttl, trace), a).value
  {
    hide After, Answer;
    r := UncachedAnswer(USERS, ttl, trace, a);
  }

  /**
   The bound is needed: a put that overtakes commit and invalidate leaves the old version in the
   cache, and later requests are answered with it for as long as `ttl` allows.
   */
  lemma OvertakenInvalidate(ttl: int, user: string, old': int, new': int, put: Time, now: Time)
    returns (trace: seq<Event>)
    requires ttl > 0 && put <= now && now - put <= ttl as real
    ensures var s := After(USERS, ttl, trace);
            && Live(s.table, user) == new'
            && Answer(USERS, ttl, s, CacheGet(2, user, now)) == Some(old')
    ensures exists i, j | 0 <= i < j < |trace| ::
              trace[i] == Commit(Change(user, Some(new'))) && trace[j] == InvalidateCache(user)
  {
    hide After, Next;
    var rows := map[user := old'];
    OneEntry(ttl, user, old', put, now);
    AfterStep(USERS, ttl, [], Commit(Change(user, Some(old'))));
    FirstSteps(ttl, user, old', put);
    AfterStep(USERS, ttl, [Commit(Change(user, Some(old')))], CacheGet(1, user, put));
    trace := [Commit(Change(user, Some(old')))] + [CacheGet(1, user, put)];
    AfterStep(USERS, ttl, trace, DbRead(1, false));
    trace := trace + [DbRead(1, false)];
    AfterStep(USERS, ttl, trace, Commit(Change(user, Some(new'))));
    trace := trace + [Commit(Change(user, Some(new')))];
    LastSteps(ttl, user, old', new', put);
    AfterStep(USERS, ttl, trace, InvalidateCache(user));
    trace := trace + [InvalidateCache(user)];
    AfterStep(USERS, ttl, trace, CachePut(1, put));
    trace := trace + [CachePut(1, put)];
    assert trace[3] == Commit(Change(user, Some(new'))) && trace[4] == InvalidateCache(user);
  }

  const Empty: State := System(map[], [], map[])

  lemma FirstSteps(ttl: int, user: string, version: int, now: Time)
    ensures After(USERS, ttl, []) == Empty
    ensures var first: Event := Commit(Change(user, Some(version))); [] + [first] == [first]
    ensures Next(USERS, ttl, Empty, Commit(Change(user, Some(version)))) == System(map[user := version], [], map[])
    ensures Next(USERS, ttl, System(map[user := version], [], map[]), CacheGet(1, user, now))
         == System(map[user := version], [], map[1 := Missed(user)])
    ensures Next(USERS, ttl, System(map[user := version], [], map[1 := Missed(user)]), DbRead(1, false))
         == System(map[user := version], [], map[1 := Read(user, version)])
  {
  }

  lemma LastSteps(ttl: int, user: string, old': int, new': int, now: Time)
    requires ttl > 0
    ensures var s := System(map[user := old'], [], map[1 := Read(user, old')]);
            var s' := System(map[user := new'], [], map[1 := Read(user, old')]);
            && Next(USERS, ttl, s, Commit(Change(user, Some(new')))) == s'
            && Next(USERS, ttl, s', InvalidateCache(user)) == s'
            && Next(USERS, ttl, s', CachePut(1, now)) == System(map[user := new'], [Entry(user, old', now)], map[])
  {
    assert map[user := old'][user := new'] == map[user := new'];
    assert Put([], MAX, user, old', now) == [Entry(user, old', now)];
    assert map[1 := Read(user, old')] - {1} == map[];
  }

  lemma OneEntry(ttl: int, user: string, version: int, put: Time, now: Time)
    requires ttl > 0 && now - put <= ttl as real
    ensures GetFresh([Entry(user, version, put)], user, ttl, now).hit == Some(version)
  {
  }
}
