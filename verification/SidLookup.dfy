/** Session verdicts looked up through the cache, run without interruption. */
module SidLookup {
  import opened Clock
  import opened Options
  import opened SidVerdicts
  import opened TtlCache
  import opened TtlCacheLaws

  /** `_sid_must_deny_access`; a lookup of `None` is a failed database call. */
  function SidVerdict(max: nat, data: Data<bool>, lookup: Option<bool>, sid: string, ttl: int, asked: Time, put: Time)
    : (Data<bool>, bool)
  {
    var out := GetFresh(data, sid, ttl, asked);
    if out.hit.Some? then (out.data, out.hit.value)
    else if lookup.None? then (out.data, true)
    else (if ttl > 0 then Put(out.data, max, sid, lookup.value, put) else out.data, lookup.value)
  }

  method SidMustDenyAccess(cache: TtlLru<bool>, lookup: Option<bool>, sid: string, ttl: int, asked: Time, put: Time)
    returns (deny: bool)
    requires cache.Valid()
    modifies cache
    ensures cache.Valid()
    ensures (cache.data, deny) == SidVerdict(cache.max, old(cache.data), lookup, sid, ttl, asked, put)
    ensures var hit := GetFresh(old(cache.data), sid, ttl, asked).hit;
            deny == if hit.Some? then hit.value else if lookup.Some? then lookup.value else true
  {
    hide Find, Without, Evicted;
    if ttl > 0 {
      var hit := cache.Get(sid, ttl, asked);
      if hit.Some? {
        return hit.value;
      }
    }
    if lookup.None? {
      return true;
    }
    deny := lookup.value;
    if ttl > 0 {
      cache.PutNow(sid, deny, put);
    }
  }

  /**
   Fail closed: without a fresh verdict a failed lookup denies and caches nothing, so the next request
   asks the database again. The cache is as before unless an expired verdict had to go.
   */
  lemma FailedLookupDenies(max: nat, data: Data<bool>, sid: string, ttl: int, asked: Time, put: Time,
                           ttl': int, later: Time)
    requires Distinct(data) && |data| <= max && GetFresh(data, sid, ttl, asked).hit.None?
    ensures var (data', deny) := SidVerdict(max, data, None, sid, ttl, asked, put);
            && deny
            && (forall e <- data' :: e in data)
            && (ttl > 0 ==> GetFresh(data', sid, ttl', later).hit.None?)
            && (data' == data <==> ttl <= 0 || !Resident(data, sid))
  {
    StepFacts(max, data, DoGet(sid, ttl, asked));
    RemovedIsGone(max, data, DoGet(sid, ttl, asked));
    WithoutFacts(data, sid);
  }

  /** A verdict read from the database is the next answer for `ttl` seconds. */
  lemma VerdictIsRemembered(max: nat, data: Data<bool>, verdict: bool, sid: string, ttl: int, asked: Time, put: Time,
                            later: Time)
    requires Distinct(data) && |data| <= max && max > 0 && GetFresh(data, sid, ttl, asked).hit.None?
    ensures var after := SidVerdict(max, data, Some(verdict), sid, ttl, asked, put).0;
            GetFresh(after, sid, ttl, later).hit ==
              if ttl > 0 && later - put <= ttl as real then Some(verdict) else None
    ensures ttl <= 0 ==> SidVerdict(max, data, Some(verdict), sid, ttl, asked, put).0 == data
  {
    StepFacts(max, data, DoGet(sid, ttl, asked));
    hide Find, Without, Evicted, Distinct;
    if ttl > 0 {
      PutIsHit(max, GetFresh(data, sid, ttl, asked).data, sid, verdict, put, ttl, later);
    }
  }

  /** Requests and closes that are not interrupted; `fails` is a database call that fails. */
  datatype SidAtomic =
    | AskSid(sid: string, fails: bool, asked: Time, put: Time)
    | Close(sids: seq<string>)

  datatype Sessions = Sessions(table: Table, data: Data<bool>)

  function Dropped(data: Data<bool>, sids: seq<string>): Data<bool> {
    if sids == [] then data else Dropped(Invalidate(data, sids[0]), sids[1..])
  }

  /** One ask by the user that a session's tokens name, or one close with the verdicts of its sessions dropped. */
  function PerformSid(max: nat, ttl: int, userOf: string -> string, s: Sessions, a: SidAtomic): (Sessions, bool) {
    match a
    case AskSid(sid, fails, asked, put) =>
      var lookup := if fails then None else Some(MustDeny(s.table, Claim(userOf(sid), sid)));
      var (data, deny) := SidVerdict(max, s.data, lookup, sid, ttl, asked, put);
      (s.(data := data), deny)
    case Close(sids) =>
      (Sessions(Write(s.table, Revoke(set sid | sid in sids)), Dropped(s.data, sids)), true)
  }

  function PerformSids(max: nat, ttl: int, userOf: string -> string, table: Table, actions: seq<SidAtomic>)
    : Sessions
  {
    if actions == [] then Sessions(table, [])
    else PerformSid(max, ttl, userOf, PerformSids(max, ttl, userOf, table, actions[..|actions| - 1]),
                    actions[|actions| - 1]).0
  }

  /** Every cached verdict is the right one. */
  ghost predicate RightVerdicts(max: nat, userOf: string -> string, s: Sessions) {
    && Distinct(s.data) && |s.data| <= max
    && forall e <- s.data :: e.value == MustDeny(s.table, Claim(userOf(e.key), e.key))
  }

  lemma {:induction false} DroppedFacts(data: Data<bool>, sids: seq<string>)
    requires Distinct(data)
    ensures var r := Dropped(data, sids);
            Distinct(r) && |r| <= |data| && forall e <- r :: e in data && e.key !in sids
    decreases |sids|
  {
    hide Find, Without, Distinct;
    if sids == [] {
    } else {
      WithoutFacts(data, sids[0]);
      DroppedFacts(Invalidate(data, sids[0]), sids[1..]);
    }
  }

  lemma HitIsRight(max: nat, ttl: int, userOf: string -> string, s: Sessions, sid: string, asked: Time)
    requires RightVerdicts(max, userOf, s)
    ensures var hit := GetFresh(s.data, sid, ttl, asked).hit;
            hit.Some? ==> hit.value == MustDeny(s.table, Claim(userOf(sid), sid))
  {
    hide Distinct, MustDeny, Without;
    var p := Find(s.data, sid);
    if p < |s.data| {
      assert s.data[p] in s.data && s.data[p].key == sid;
    }
  }

  lemma SidAskIsRight(max: nat, ttl: int, userOf: string -> string, s: Sessions, a: SidAtomic)
    requires RightVerdicts(max, userOf, s) && a.AskSid?
    ensures RightVerdicts(max, userOf, PerformSid(max, ttl, userOf, s, a).0)
    ensures var right, deny := MustDeny(s.table, Claim(userOf(a.sid), a.sid)), PerformSid(max, ttl, userOf, s, a).1;
            if a.fails && GetFresh(s.data, a.sid, ttl, a.asked).hit.None? then deny else deny == right
  {
    hide Find, Without, Evicted, Distinct, MustDeny, Put;
    var out := GetFresh(s.data, a.sid, ttl, a.asked);
    var right := MustDeny(s.table, Claim(userOf(a.sid), a.sid));
    HitIsRight(max, ttl, userOf, s, a.sid, a.asked);
    StepFacts(max, s.data, DoGet(a.sid, ttl, a.asked));
    StepFacts(max, out.data, DoPut(a.sid, right, a.put));
  }

  lemma CloseIsRight(max: nat, ttl: int, userOf: string -> string, s: Sessions, sids: seq<string>)
    requires RightVerdicts(max, userOf, s)
    ensures RightVerdicts(max, userOf, PerformSid(max, ttl, userOf, s, Close(sids)).0)
  {
    hide Distinct, Dropped;
    DroppedFacts(s.data, sids);
  }

  lemma {:induction false} VerdictsStayRight(max: nat, ttl: int, userOf: string -> string, table: Table,
                                             actions: seq<SidAtomic>)
    ensures RightVerdicts(max, userOf, PerformSids(max, ttl, userOf, table, actions))
  {
    hide PerformSid;
    if actions == [] {
    } else {
      var s, a := PerformSids(max, ttl, userOf, table, actions[..|actions| - 1]), actions[|actions| - 1];
      VerdictsStayRight(max, ttl, userOf, table, actions[..|actions| - 1]);
      match a {
        case AskSid(sid, fails, asked, put) => SidAskIsRight(max, ttl, userOf, s, a);
        case Close(sids) => CloseIsRight(max, ttl, userOf, s, sids);
      }
    }
  }

  /**
   Without interruptions every answer is exact, however long verdicts may live, when closing a session drops its
   verdict and a session is asked about for one user. A failed lookup denies.
   */
  lemma AtomicVerdictIsRight(max: nat, ttl: int, userOf: string -> string, table: Table, actions: seq<SidAtomic>,
                             a: SidAtomic)
    requires a.AskSid?
    ensures var s := PerformSids(max, ttl, userOf, table, actions);
            var right, deny := MustDeny(s.table, Claim(userOf(a.sid), a.sid)),
                               PerformSid(max, ttl, userOf, s, a).1;
            if a.fails && GetFresh(s.data, a.sid, ttl, a.asked).hit.None? then deny else deny == right
  {
    VerdictsStayRight(max, ttl, userOf, table, actions);
    SidAskIsRight(max, ttl, userOf, PerformSids(max, ttl, userOf, table, actions), a);
  }
}
