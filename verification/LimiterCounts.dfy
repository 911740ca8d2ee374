/** The limiters in numbers: how many requests or failures of a key stand where in a history. */
module LimiterCounts {
  import opened Clock
  import opened LoginInterleaving
  import opened LoginLimiter
  import opened RateLimit
  import opened SlidingWindow

  lemma {:induction false} FromAppend(times: seq<Time>, t: Time, lo: Time)
    ensures From(times + [t], lo) == From(times, lo) + if t >= lo then [t] else []
  {
    if times == [] {
      assert times + [t] == [t] && [t][1..] == [];
    } else {
      assert (times + [t])[1..] == times[1..] + [t];
      FromAppend(times[1..], t, lo);
    }
  }

  /** One place more, or none. */
  lemma OneMore(a: set<int>, b: set<int>, n: int, hit: bool)
    requires n !in a && forall i :: i in b <==> i in a || (hit && i == n)
    ensures |b| == |a| + if hit then 1 else 0
  {
    var more := if hit then {n} else {};
    forall i
      ensures i in b <==> i in a + more
    {
    }
    assert b == a + more;
  }

  // ---------- requests ----------

  predicate Since(request: Request, key: string, lo: Time) {
    request.key == key && lo <= request.time
  }

  predicate Within(request: Request, key: string, lo: Time, hi: Time) {
    request.key == key && lo <= request.time <= hi
  }

  /** The requests of a key from `lo` to `hi`, as places in a history. */
  function Requests(history: seq<Request>, key: string, lo: Time, hi: Time): set<int> {
    set i | 0 <= i < |history| && Within(history[i], key, lo, hi)
  }

  function RequestsSince(history: seq<Request>, key: string, lo: Time): set<int> {
    set i | 0 <= i < |history| && Since(history[i], key, lo)
  }

  lemma RequestsSnoc(history: seq<Request>, key: string, lo: Time, hi: Time)
    requires history != []
    ensures var n, last := |history| - 1, history[|history| - 1];
            && |RequestsSince(history, key, lo)|
               == |RequestsSince(history[..n], key, lo)| + (if Since(last, key, lo) then 1 else 0)
            && |Requests(history, key, lo, hi)|
               == |Requests(history[..n], key, lo, hi)| + if Within(last, key, lo, hi) then 1 else 0
  {
    hide Since, Within;
    var n := |history| - 1;
    OneMore(RequestsSince(history[..n], key, lo), RequestsSince(history, key, lo), n, Since(history[n], key, lo));
    OneMore(Requests(history[..n], key, lo, hi), Requests(history, key, lo, hi), n, Within(history[n], key, lo, hi));
  }

  lemma {:induction false} RequestCounts(history: seq<Request>, key: string, lo: Time, hi: Time)
    ensures |From(TimesOf(history, key), lo)| == |RequestsSince(history, key, lo)|
    ensures |Window(TimesOf(history, key), lo, hi)| == |Requests(history, key, lo, hi)|
  {
    hide From, Window, RequestsSince, Requests;
    if history == [] {
      NoRequests(key, lo, hi);
    } else {
      var front, last := history[..|history| - 1], history[|history| - 1];
      RequestCounts(front, key, lo, hi);
      FromAppend(TimesOf(front, key), last.time, lo);
      WindowAppend(TimesOf(front, key), last.time, lo, hi);
      RequestsSnoc(history, key, lo, hi);
    }
  }

  lemma NoRequests(key: string, lo: Time, hi: Time)
    ensures |From(TimesOf([], key), lo)| == |RequestsSince([], key, lo)|
    ensures |Window(TimesOf([], key), lo, hi)| == |Requests([], key, lo, hi)|
  {
    assert RequestsSince([], key, lo) == {} && Requests([], key, lo, hi) == {};
  }

  /** A request is admitted exactly when fewer than `max` were admitted for its key in the window before it. */
  lemma AdmitsIff(max: int, window: Time, history: seq<Request>, key: string, now: Time)
    ensures Admits(max, window, history, key, now) <==> |RequestsSince(history, key, now - window)| < max
  {
    RequestCounts(history, key, now - window, now);
  }

  lemma NothingAdmitted(max: int, window: Time)
    ensures Admitted(max, window, []) == []
  {
  }

  /** The admitted requests of a run, one check after the other. */
  lemma AdmittedNext(max: int, window: Time, calls: seq<Request>, call: Request)
    ensures var before := Admitted(max, window, calls);
            Admitted(max, window, calls + [call]) ==
              before + if |RequestsSince(before, call.key, call.time - window)| < max then [call] else []
    ensures Admitted(max, window, []) == []
  {
    hide RequestsSince, Admits, Admitted;
    NothingAdmitted(max, window);
    AdmittedSnoc(max, window, calls, call);
    assert Admitted(max, window, calls) + [] == Admitted(max, window, calls);
    AdmitsIff(max, window, Admitted(max, window, calls), call.key, call.time);
  }

  /** At most `max` requests of a key are admitted in any stretch of the window's length. */
  lemma AdmittedBound(max: nat, window: Time, calls: seq<Request>, key: string, lo: Time)
    requires RateLimit.Ordered(calls)
    ensures |Requests(Admitted(max, window, calls), key, lo, lo + window)| <= max
  {
    hide Requests, Window, Admitted, RateLimit.Ordered;
    WindowBound(max, window, calls, key, lo);
    RequestCounts(Admitted(max, window, calls), key, lo, lo + window);
  }

  // ---------- failed logins ----------

  predicate IpSince(note: Note, ip: string, lo: Time) {
    note.Failed? && note.ip == ip && lo <= note.time
  }

  predicate EmailSince(note: Note, email: string, lo: Time) {
    note.Failed? && note.email == email && lo <= note.time
  }

  predicate By(note: Note, hi: Time) {
    note.Failed? && note.time <= hi
  }

  /** Failures of an address from `lo` on, as places in the notes. */
  function IpFailed(notes: seq<Note>, ip: string, lo: Time): set<int> {
    set i | 0 <= i < |notes| && IpSince(notes[i], ip, lo)
  }

  /** Failures of an email from `lo` on that no success of it follows. */
  function EmailFailed(notes: seq<Note>, email: string, lo: Time): set<int> {
    set i | 0 <= i < |notes| && EmailSince(notes[i], email, lo) && Succeeded(email) !in notes[i..]
  }

  function IpFailedIn(notes: seq<Note>, ip: string, lo: Time, hi: Time): set<int> {
    set i | 0 <= i < |notes| && IpSince(notes[i], ip, lo) && By(notes[i], hi)
  }

  function EmailFailedIn(notes: seq<Note>, email: string, lo: Time, hi: Time): set<int> {
    set i | 0 <= i < |notes| && EmailSince(notes[i], email, lo) && By(notes[i], hi)
            && Succeeded(email) !in notes[i..]
  }

  lemma IpSnoc(notes: seq<Note>, ip: string, lo: Time, hi: Time)
    requires notes != []
    ensures var n, last := |notes| - 1, notes[|notes| - 1];
            && |IpFailed(notes, ip, lo)| == |IpFailed(notes[..n], ip, lo)| + (if IpSince(last, ip, lo) then 1 else 0)
            && |IpFailedIn(notes, ip, lo, hi)|
               == |IpFailedIn(notes[..n], ip, lo, hi)| + if IpSince(last, ip, lo) && By(last, hi) then 1 else 0
  {
    hide IpSince, By;
    var n, last := |notes| - 1, notes[|notes| - 1];
    OneMore(IpFailed(notes[..n], ip, lo), IpFailed(notes, ip, lo), n, IpSince(last, ip, lo));
    OneMore(IpFailedIn(notes[..n], ip, lo, hi), IpFailedIn(notes, ip, lo, hi), n,
            IpSince(last, ip, lo) && By(last, hi));
  }

  lemma {:induction false} IpCounts(notes: seq<Note>, ip: string, lo: Time, hi: Time)
    ensures |From(IpTimes(notes, ip), lo)| == |IpFailed(notes, ip, lo)|
    ensures |Window(IpTimes(notes, ip), lo, hi)| == |IpFailedIn(notes, ip, lo, hi)|
  {
    hide From, Window, IpFailed, IpFailedIn;
    if notes == [] {
      NoNotes(ip, lo, hi);
    } else {
      var front, last := notes[..|notes| - 1], notes[|notes| - 1];
      IpCounts(front, ip, lo, hi);
      if last.Failed? {
        FromAppend(IpTimes(front, ip), last.time, lo);
        WindowAppend(IpTimes(front, ip), last.time, lo, hi);
      }
      IpSnoc(notes, ip, lo, hi);
    }
  }

  lemma NoNotes(key: string, lo: Time, hi: Time)
    ensures |From(IpTimes([], key), lo)| == |IpFailed([], key, lo)|
    ensures |Window(IpTimes([], key), lo, hi)| == |IpFailedIn([], key, lo, hi)|
    ensures |From(EmailTimes([], key), lo)| == |EmailFailed([], key, lo)|
    ensures |Window(EmailTimes([], key), lo, hi)| == |EmailFailedIn([], key, lo, hi)|
    ensures From([], lo) == [] && Window([], lo, hi) == []
  {
    assert IpFailed([], key, lo) == {} && IpFailedIn([], key, lo, hi) == {};
    assert EmailFailed([], key, lo) == {} && EmailFailedIn([], key, lo, hi) == {};
  }

  lemma SuccessBehind(notes: seq<Note>, email: string)
    requires notes != [] && notes[|notes| - 1] != Succeeded(email)
    ensures var n := |notes| - 1;
            forall i | 0 <= i < n :: Succeeded(email) !in notes[i..] <==> Succeeded(email) !in notes[..n][i..]
    ensures Succeeded(email) !in notes[|notes| - 1..]
  {
    var n := |notes| - 1;
    forall i | 0 <= i < n
      ensures Succeeded(email) !in notes[i..] <==> Succeeded(email) !in notes[..n][i..]
    {
      assert notes[i..] == notes[..n][i..] + [notes[n]];
    }
  }

  lemma EmailSnoc(notes: seq<Note>, email: string, lo: Time, hi: Time)
    requires notes != [] && notes[|notes| - 1] != Succeeded(email)
    ensures var n, last := |notes| - 1, notes[|notes| - 1];
            && |EmailFailed(notes, email, lo)|
               == |EmailFailed(notes[..n], email, lo)| + (if EmailSince(last, email, lo) then 1 else 0)
            && |EmailFailedIn(notes, email, lo, hi)|
               == |EmailFailedIn(notes[..n], email, lo, hi)|
                  + if EmailSince(last, email, lo) && By(last, hi) then 1 else 0
  {
    hide EmailSince, By;
    var n, last := |notes| - 1, notes[|notes| - 1];
    SuccessBehind(notes, email);
    OneMore(EmailFailed(notes[..n], email, lo), EmailFailed(notes, email, lo), n, EmailSince(last, email, lo));
    OneMore(EmailFailedIn(notes[..n], email, lo, hi), EmailFailedIn(notes, email, lo, hi), n,
            EmailSince(last, email, lo) && By(last, hi));
  }

  lemma EmailCleared(notes: seq<Note>, email: string, lo: Time, hi: Time)
    requires notes != [] && notes[|notes| - 1] == Succeeded(email)
    ensures EmailFailed(notes, email, lo) == {} && EmailFailedIn(notes, email, lo, hi) == {}
  {
    hide By, EmailSince;
    forall i | 0 <= i < |notes|
      ensures Succeeded(email) in notes[i..]
    {
      assert notes[i..][|notes| - 1 - i] == Succeeded(email);
    }
  }

  lemma {:induction false} EmailCounts(notes: seq<Note>, email: string, lo: Time, hi: Time)
    ensures |From(EmailTimes(notes, email), lo)| == |EmailFailed(notes, email, lo)|
    ensures |Window(EmailTimes(notes, email), lo, hi)| == |EmailFailedIn(notes, email, lo, hi)|
  {
    hide From, Window, EmailFailed, EmailFailedIn;
    NoNotes(email, lo, hi);
    if notes == [] {
    } else {
      var front, last := notes[..|notes| - 1], notes[|notes| - 1];
      EmailCounts(front, email, lo, hi);
      if last.Failed? {
        FromAppend(EmailTimes(front, email), last.time, lo);
        WindowAppend(EmailTimes(front, email), last.time, lo, hi);
      }
      if last == Succeeded(email) {
        EmailCleared(notes, email, lo, hi);
      } else {
        EmailSnoc(notes, email, lo, hi);
      }
    }
  }

  /** A login is checked exactly when both keys have fewer than five failures in the last minute. */
  lemma AllowsIff(notes: seq<Note>, ip: string, email: string, now: Time)
    ensures Allows(notes, ip, email, now) <==>
            |IpFailed(notes, ip, now - 60.0)| < 5 && |EmailFailed(notes, email, now - 60.0)| < 5
  {
    IpCounts(notes, ip, now - 60.0, now);
    EmailCounts(notes, email, now - 60.0, now);
  }

  /** The route: refused over the limit, else answered by the credentials; only wrong ones count, right ones clear. */
  lemma LoginIs(notes: seq<Note>, a: Attempt)
    ensures var full := |IpFailed(notes, a.ip, a.checked - 60.0)| >= 5
                        || |EmailFailed(notes, a.email, a.checked - 60.0)| >= 5;
            && LoginStatus(notes, a) == (if full then TooMany else if a.verified then LoggedIn else BadCredentials)
            && LoginNotes(notes, a) == notes + if full then []
                                               else if a.verified then [Succeeded(a.email)]
                                               else [Failed(a.ip, a.email, a.recorded)]
  {
    AllowsIff(notes, a.ip, a.email, a.checked);
    hide Allows;
    assert notes + [] == notes;
  }

  /** At most five failures of an address, and of an email since its last success, in any minute. */
  lemma FailedBound(attempts: seq<Attempt>, key: string, lo: Time)
    requires Sequential(attempts)
    ensures |IpFailedIn(AllNotes(attempts), key, lo, lo + 60.0)| <= 5
    ensures |EmailFailedIn(AllNotes(attempts), key, lo, lo + 60.0)| <= 5
  {
    FailureBound(attempts, key, lo);
    IpCounts(AllNotes(attempts), key, lo, lo + 60.0);
    EmailCounts(AllNotes(attempts), key, lo, lo + 60.0);
  }

  /** With logins of a key under way at once, their number adds to four. */
  lemma InterleavedFailedBound(steps: seq<Step>, key: string, lo: Time, c: nat)
    requires Timed(steps) && AtMost(steps, key, c)
    ensures |IpFailedIn(After(steps).notes, key, lo, lo + 60.0)| <= 4 + c
    ensures |EmailFailedIn(After(steps).notes, key, lo, lo + 60.0)| <= 4 + c
  {
    hide Timed, AtMost, After;
    InterleavedFailureBound(steps, key, lo, c);
    IpCounts(After(steps).notes, key, lo, lo + 60.0);
    EmailCounts(After(steps).notes, key, lo, lo + 60.0);
  }
}
