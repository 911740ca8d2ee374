/**
 Cached session verdicts under concurrency. A request asks whether its session must be denied through the
 cache; writers close sessions and then drop their verdicts. A failed lookup denies.
 */
module SidVerdicts {
  import opened CachedReads
  import opened Clock
  import opened Options
  import opened TtlCache
  import opened TtlCacheLaws

  /** A session is active, or revoked or deleted for good: its id, a fresh UUID, is not handed out again. */
  datatype Row = Active(owner: string) | Closed

  type Table = map<string, Row>

  /** What an access token claims: its user and its session. */
  datatype Claim = Claim(sub: string, sid: string)

  /** One transaction: a new session, the revocation of some, or the deletion of a user's. */
  datatype Change =
    | Open(sid: string, owner: string)
    | Revoke(sids: set<string>)
    | Purge(owner: string)

  type Event = Action<Claim, Change>
  type State = System<Table, Claim, bool>

  function KeyOf(claim: Claim): string {
    claim.sid
  }

  /** `is_session_revoked`: the row is missing under this user, or revoked. */
  predicate MustDeny(table: Table, claim: Claim) {
    claim.sid !in table || table[claim.sid] != Active(claim.sub)
  }

  function Look(table: Table, claim: Claim): Lookup<bool> {
    Kept(MustDeny(table, claim))
  }

  function Write(table: Table, c: Change): Table {
    match c
    case Open(sid, owner) => if sid in table then table else table[sid := Active(owner)]
    case Revoke(sids) => map sid | sid in table :: if sid in sids then Closed else table[sid]
    case Purge(owner) => map sid | sid in table :: if table[sid] == Active(owner) then Closed else table[sid]
  }

  const SESSIONS: Store<Table, Change, Claim, bool> := Store(map[], KeyOf, Look, Write, Some(true))

  /** Does the step close the claimed session of the claimed user? */
  predicate Closes(a: Event, claim: Claim) {
    a.Commit? && ((a.change.Revoke? && claim.sid in a.change.sids) || a.change == Purge(claim.sub))
  }

  lemma NextTable(ttl: int, s: State, a: Event)
    ensures Next(SESSIONS, ttl, s, a).table == if a.Commit? then Write(s.table, a.change) else s.table
  {
    hide GetFresh, Put, Invalidate;
  }

  /** An active session stays active until a step closes it; a closed one stays closed. */
  lemma {:induction false} RowSince(ttl: int, trace: seq<Event>, sid: string, r: nat)
    requires r <= |trace| && sid in After(SESSIONS, ttl, trace[..r]).table
    ensures var then', now := After(SESSIONS, ttl, trace[..r]).table, After(SESSIONS, ttl, trace).table;
            && sid in now
            && now[sid] == (if then'[sid].Active?
                               && (forall j | r <= j < |trace| :: !Closes(trace[j], Claim(then'[sid].owner, sid)))
                            then then'[sid] else Closed)
  {
    hide Next, After;
    if r == |trace| {
      assert trace[..r] == trace;
    } else {
      var front, a := trace[..|trace| - 1], trace[|trace| - 1];
      LastStep(SESSIONS, ttl, trace);
      assert front[..r] == trace[..r];
      RowSince(ttl, front, sid, r);
      NextTable(ttl, After(SESSIONS, ttl, front), a);
    }
  }

  // ---------- cached and other verdicts ----------

  /**
   An allow answered from the cache was the verdict of a lookup put at most `ttl` ago, after the last
   invalidate. It is right for the asking claim exactly when that lookup was for the same user and no
   step has closed the session since.
   */
  lemma CachedAllowIsRightIff(ttl: int, trace: seq<Event>, a: Event) returns (r: nat, p: nat, claim: Claim)
    requires a.CacheGet? && Answer(SESSIONS, ttl, After(SESSIONS, ttl, trace), a) == Some(false)
    ensures r < p < |trace| && trace[p].CachePut? && trace[r] == DbRead(trace[p].who, false)
    ensures a.now - trace[p].now <= ttl as real && claim.sid == a.query.sid
    ensures !MustDeny(After(SESSIONS, ttl, trace[..r]).table, claim)
    ensures !MustDeny(After(SESSIONS, ttl, trace).table, a.query)
       <==> a.query.sub == claim.sub && forall j | r <= j < |trace| :: !Closes(trace[j], claim)
    ensures forall j | 0 <= j < |trace| && trace[j] == InvalidateCache(a.query.sid) :: j < p
  {
    hide After, Answer;
    r, p, claim := CachedAnswerIsRecent(SESSIONS, ttl, trace, a);
    RowSince(ttl, trace, claim.sid, r);
  }

  /** A deny answered from the cache is right for the user it was looked up for, once the session existed. */
  lemma CachedDenyIsRight(ttl: int, trace: seq<Event>, a: Event) returns (r: nat, p: nat, claim: Claim)
    requires a.CacheGet? && Answer(SESSIONS, ttl, After(SESSIONS, ttl, trace), a) == Some(true)
    ensures r < p < |trace| && trace[p].CachePut? && trace[r] == DbRead(trace[p].who, false)
    ensures a.now - trace[p].now <= ttl as real && claim.sid == a.query.sid
    ensures MustDeny(After(SESSIONS, ttl, trace[..r]).table, claim)
    ensures a.query.sub == claim.sub && claim.sid in After(SESSIONS, ttl, trace[..r]).table ==>
              MustDeny(After(SESSIONS, ttl, trace).table, a.query)
  {
    hide After, Answer;
    r, p, claim := CachedAnswerIsRecent(SESSIONS, ttl, trace, a);
    if claim.sid in After(SESSIONS, ttl, trace[..r]).table {
      RowSince(ttl, trace, claim.sid, r);
    }
  }

  /** Any other answer is the verdict at the request's own lookup, or a deny for its failed lookup. */
  lemma UncachedVerdict(ttl: int, trace: seq<Event>, a: Event) returns (r: nat)
    requires (a.DbRead? || a.CachePut?) && Answer(SESSIONS, ttl, After(SESSIONS, ttl, trace), a).Some?
    ensures r <= |trace| && a.who in After(SESSIONS, ttl, trace).pending
    ensures var s, deny := After(SESSIONS, ttl, trace), Answer(SESSIONS, ttl, After(SESSIONS, ttl, trace), a).value;
            if a.DbRead? then a.fails && deny && Next(SESSIONS, ttl, s, a).cache == s.cache
            else && r < |trace| && trace[r] == DbRead(a.who, false)
                 && deny == MustDeny(After(SESSIONS, ttl, trace[..r]).table, s.pending[a.who].query)
  {
    hide After;
    r := UncachedAnswer(SESSIONS, ttl, trace, a);
  }

  /** A failed lookup denies its request and ends it; nothing is cached. */
  lemma FailedLookup(ttl: int, s: State, who: nat)
    requires MissedAt(s, who)
    ensures Answer(SESSIONS, ttl, s, DbRead(who, true)) == Some(true)
    ensures Next(SESSIONS, ttl, s, DbRead(who, true)) == s.(pending := s.pending - {who})
  {
  }

  // ---------- a closed session ----------

  predicate IsClosed(s: State, sid: string) {
    sid in s.table && s.table[sid] == Closed
  }

  predicate NoCachedAllow(s: State, sid: string) {
    forall e <- s.cache :: e.key == sid ==> e.value
  }

  /** No request holds an allow of the session that it has yet to answer and put. */
  predicate NoPendingAllow(s: State, sid: string) {
    forall who <- s.pending :: s.pending[who].Read? && s.pending[who].query.sid == sid ==> s.pending[who].value
  }

  /** Would this step allow a request for the session? */
  predicate Allows(ttl: int, trace: seq<Event>, a: Event, sid: string) {
    var s := After(SESSIONS, ttl, trace);
    && (match a
        case CacheGet(who, query, now) => query.sid == sid
        case DbRead(who, fails) => who in s.pending && s.pending[who].query.sid == sid
        case CachePut(who, now) => who in s.pending && s.pending[who].query.sid == sid
        case _ => false)
    && Answer(SESSIONS, ttl, s, a) == Some(false)
  }

  lemma SealedStays(ttl: int, s: State, a: Event, sid: string)
    requires Distinct(s.cache) && |s.cache| <= MAX
    requires IsClosed(s, sid) && NoCachedAllow(s, sid) && NoPendingAllow(s, sid)
    ensures var s' := Next(SESSIONS, ttl, s, a);
            IsClosed(s', sid) && NoCachedAllow(s', sid) && NoPendingAllow(s', sid)
  {
    hide GetFresh, Put, Invalidate, Distinct;
    NextCache(SESSIONS, ttl, s, a);
  }

  lemma {:induction false} SealedForever(ttl: int, trace: seq<Event>, ext: seq<Event>, sid: string)
    requires var s := After(SESSIONS, ttl, trace);
             IsClosed(s, sid) && NoCachedAllow(s, sid) && NoPendingAllow(s, sid)
    ensures var s := After(SESSIONS, ttl, trace + ext);
            IsClosed(s, sid) && NoCachedAllow(s, sid) && NoPendingAllow(s, sid)
  {
    hide After, Next, IsClosed, NoCachedAllow, NoPendingAllow, Distinct;
    if ext == [] {
      assert trace + ext == trace;
    } else {
      var before, a := trace + ext[..|ext| - 1], ext[|ext| - 1];
      SealedForever(ttl, trace, ext[..|ext| - 1], sid);
      CacheIsDistinct(SESSIONS, ttl, before);
      SealedStays(ttl, After(SESSIONS, ttl, before), a, sid);
      AfterStep(SESSIONS, ttl, before, a);
      assert trace + ext == before + [a];
    }
  }

  lemma SealedDenies(ttl: int, trace: seq<Event>, a: Event, sid: string)
    requires var s := After(SESSIONS, ttl, trace);
             IsClosed(s, sid) && NoCachedAllow(s, sid) && NoPendingAllow(s, sid)
    ensures !Allows(ttl, trace, a, sid)
  {
    hide After;
  }

  lemma SealedNeverAllows(ttl: int, trace: seq<Event>, sid: string)
    requires var s := After(SESSIONS, ttl, trace);
             IsClosed(s, sid) && NoCachedAllow(s, sid) && NoPendingAllow(s, sid)
    ensures forall ext, a :: !Allows(ttl, trace + ext, a, sid)
  {
    hide After, Allows, IsClosed, NoCachedAllow, NoPendingAllow;
    forall ext: seq<Event>, a: Event
      ensures !Allows(ttl, trace + ext, a, sid)
    {
      SealedForever(ttl, trace, ext, sid);
      SealedDenies(ttl, trace + ext, a, sid);
    }
  }

  lemma PendingAllows(ttl: int, trace: seq<Event>, sid: string)
    requires !NoPendingAllow(After(SESSIONS, ttl, trace), sid)
    ensures exists ext, a :: Allows(ttl, trace + ext, a, sid)
  {
    var s := After(SESSIONS, ttl, trace);
    hide After;
    var who :| who in s.pending && s.pending[who].Read? && s.pending[who].query.sid == sid && !s.pending[who].value;
    assert trace + [] == trace;
    assert Allows(ttl, trace + [], CachePut(who, 0.0), sid);
  }

  /**
   Closing a session and then dropping its verdict denies it from then on if and only if no request is
   under way that looked the session up before and holds an allow.
   */
  lemma ClosedStaysDeniedIff(ttl: int, trace: seq<Event>, sid: string)
    requires IsClosed(After(SESSIONS, ttl, trace), sid)
    ensures (forall ext, a :: !Allows(ttl, trace + [InvalidateCache(sid)] + ext, a, sid))
       <==> NoPendingAllow(After(SESSIONS, ttl, trace), sid)
  {
    hide After, Distinct;
    var trace' := trace + [InvalidateCache(sid)];
    AfterStep(SESSIONS, ttl, trace, InvalidateCache(sid));
    CacheIsDistinct(SESSIONS, ttl, trace);
    NextCache(SESSIONS, ttl, After(SESSIONS, ttl, trace), InvalidateCache(sid));
    hide Allows;
    if NoPendingAllow(After(SESSIONS, ttl, trace), sid) {
      SealedNeverAllows(ttl, trace', sid);
    } else {
      PendingAllows(ttl, trace', sid);
    }
  }

  /**
   Deleting a user drops the verdicts before it deletes the rows. One whole request between the two
   caches an allow, which is answered after the deletion for as long as `ttl` allows.
   */
  lemma DropBeforePurge(ttl: int, claim: Claim, put: Time, now: Time) returns (trace: seq<Event>)
    requires ttl > 0 && now - put <= ttl as real
    ensures trace == [Commit(Open(claim.sid, claim.sub)), InvalidateCache(claim.sid), CacheGet(1, claim, put),
                      DbRead(1, false), CachePut(1, put), Commit(Purge(claim.sub))]
    ensures MustDeny(After(SESSIONS, ttl, trace).table, claim) && Allows(ttl, trace, CacheGet(2, claim, now), claim.sid)
  {
    hide After, Next;
    StartIs(ttl);
    trace := [];
    var steps := [Commit(Open(claim.sid, claim.sub)), InvalidateCache(claim.sid), CacheGet(1, claim, put),
                  DbRead(1, false), CachePut(1, put), Commit(Purge(claim.sub))];
    OpenAndDrop(ttl, claim);
    AskAndPut(ttl, claim, put);
    PurgeSteps(ttl, claim, put, now);
    for i := 0 to 6
      invariant trace == steps[..i]
      invariant After(SESSIONS, ttl, trace) == DropBeforePurgeState(claim, put, i)
    {
      AfterStep(SESSIONS, ttl, trace, steps[i]);
      trace := trace + [steps[i]];
    }
  }

  /** The states of that run. */
  function DropBeforePurgeState(claim: Claim, put: Time, i: nat): State {
    var open := map[claim.sid := Active(claim.sub)];
    if i == 0 then System(map[], [], map[])
    else if i <= 2 then System(open, [], map[])
    else if i == 3 then System(open, [], map[1 := Missed(claim)])
    else if i == 4 then System(open, [], map[1 := Read(claim, false)])
    else System(if i == 5 then open else map[claim.sid := Closed], [Entry(claim.sid, false, put)], map[])
  }

  lemma StartIs(ttl: int)
    ensures After(SESSIONS, ttl, []) == System(map[], [], map[])
  {
  }

  lemma OpenAndDrop(ttl: int, claim: Claim)
    ensures var open := System(map[claim.sid := Active(claim.sub)], [], map[]);
            && Next(SESSIONS, ttl, System(map[], [], map[]), Commit(Open(claim.sid, claim.sub))) == open
            && Next(SESSIONS, ttl, open, InvalidateCache(claim.sid)) == open
  {
  }

  lemma AskAndPut(ttl: int, claim: Claim, put: Time)
    requires ttl > 0
    ensures var open := map[claim.sid := Active(claim.sub)];
            var missed := System(open, [], map[1 := Missed(claim)]);
            var read := System(open, [], map[1 := Read(claim, false)]);
            && Next(SESSIONS, ttl, System(open, [], map[]), CacheGet(1, claim, put)) == missed
            && Next(SESSIONS, ttl, missed, DbRead(1, false)) == read
            && Next(SESSIONS, ttl, read, CachePut(1, put)) == System(open, [Entry(claim.sid, false, put)], map[])
  {
    assert Put([], MAX, claim.sid, false, put) == [Entry(claim.sid, false, put)];
    assert map[1 := Read(claim, false)] - {1} == map[];
  }

  lemma PurgeSteps(ttl: int, claim: Claim, put: Time, now: Time)
    requires ttl > 0 && now - put <= ttl as real
    ensures var open, closed := map[claim.sid := Active(claim.sub)], map[claim.sid := Closed];
            var cache := [Entry(claim.sid, false, put)];
            && Next(SESSIONS, ttl, System(open, cache, map[]), Commit(Purge(claim.sub))) == System(closed, cache, map[])
            && Answer(SESSIONS, ttl, System(closed, cache, map[]), CacheGet(2, claim, now)) == Some(false)
  {
    assert Write(map[claim.sid := Active(claim.sub)], Purge(claim.sub)) == map[claim.sid := Closed];
  }
}
