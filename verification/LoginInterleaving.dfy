/**
 Concurrent logins: between the check of one login and the record of its outcome, others may be checked
 and recorded. The limit of the sequential route then grows by the logins that are under way.
 */
module LoginInterleaving {
  import opened Clock
  import opened LoginLimiter
  import opened SlidingWindow

  datatype Login = Login(ip: string, email: string)

  /** One step of the route: a check, or the record of the `index`-th login under way. */
  datatype Step =
    | Checked(login: Login, time: Time)
    | Recorded(index: nat, verified: bool, time: Time)

  datatype State = State(notes: seq<Note>, pending: seq<Login>)

  function Next(s: State, step: Step): State {
    match step
    case Checked(login, now) =>
      if Allows(s.notes, login.ip, login.email, now) then s.(pending := s.pending + [login]) else s
    case Recorded(index, verified, now) =>
      if index >= |s.pending| then s
      else
        var login := s.pending[index];
        State(s.notes + [if verified then Succeeded(login.email) else Failed(login.ip, login.email, now)],
              s.pending[..index] + s.pending[index + 1..])
  }

  function After(steps: seq<Step>): State {
    if steps == [] then State([], [])
    else Next(After(steps[..|steps| - 1]), steps[|steps| - 1])
  }

  predicate Timed(steps: seq<Step>) {
    forall i, j | 0 <= i < j < |steps| :: steps[i].time <= steps[j].time
  }

  /** Logins under way that count against an address, or against an email. */
  function ByIp(pending: seq<Login>, ip: string): nat {
    if pending == [] then 0 else (if pending[0].ip == ip then 1 else 0) + ByIp(pending[1..], ip)
  }

  function ByEmail(pending: seq<Login>, email: string): nat {
    if pending == [] then 0 else (if pending[0].email == email then 1 else 0) + ByEmail(pending[1..], email)
  }

  /** At most `c` logins of the address, and of the email, are ever under way at once. */
  predicate AtMost(steps: seq<Step>, key: string, c: nat) {
    forall i | 0 <= i <= |steps| ::
      ByIp(After(steps[..i]).pending, key) <= c && ByEmail(After(steps[..i]).pending, key) <= c
  }

  lemma {:induction false} CountsConcat(xs: seq<Login>, ys: seq<Login>, key: string)
    ensures ByIp(xs + ys, key) == ByIp(xs, key) + ByIp(ys, key)
    ensures ByEmail(xs + ys, key) == ByEmail(xs, key) + ByEmail(ys, key)
  {
    if xs == [] {
      assert xs + ys == ys;
    } else {
      assert (xs + ys)[1..] == xs[1..] + ys;
      CountsConcat(xs[1..], ys, key);
    }
  }

  lemma CountsOne(login: Login, key: string)
    ensures ByIp([login], key) == if login.ip == key then 1 else 0
    ensures ByEmail([login], key) == if login.email == key then 1 else 0
  {
    assert [login][1..] == [];
  }

  lemma CountsWithout(pending: seq<Login>, k: nat, key: string)
    requires k < |pending|
    ensures var rest := pending[..k] + pending[k + 1..];
            && ByIp(pending, key) == ByIp(rest, key) + (if pending[k].ip == key then 1 else 0)
            && ByEmail(pending, key) == ByEmail(rest, key) + (if pending[k].email == key then 1 else 0)
  {
    hide ByIp, ByEmail;
    CountsConcat(pending[..k], pending[k + 1..], key);
    CountsConcat(pending[..k], [pending[k]] + pending[k + 1..], key);
    CountsConcat([pending[k]], pending[k + 1..], key);
    CountsOne(pending[k], key);
    assert pending == pending[..k] + ([pending[k]] + pending[k + 1..]);
  }

  /** Failures of a key in a window that begins at `lo`. */
  function IpFailures(notes: seq<Note>, key: string, lo: Time): nat {
    |Window(IpTimes(notes, key), lo, lo + WINDOW)|
  }

  function EmailFailures(notes: seq<Note>, key: string, lo: Time): nat {
    |Window(EmailTimes(notes, key), lo, lo + WINDOW)|
  }

  lemma NoteCounts(notes: seq<Note>, note: Note, key: string, lo: Time)
    ensures var hit := note.Failed? && lo <= note.time <= lo + WINDOW;
            && IpFailures(notes + [note], key, lo)
               == IpFailures(notes, key, lo) + (if hit && note.ip == key then 1 else 0)
            && EmailFailures(notes + [note], key, lo)
               <= EmailFailures(notes, key, lo) + (if hit && note.email == key then 1 else 0)
  {
    hide IpTimes, EmailTimes, Window;
    AppendedTimes(notes, note, key);
    if note.Failed? {
      WindowAppend(IpTimes(notes, key), note.time, lo, lo + WINDOW);
      WindowAppend(EmailTimes(notes, key), note.time, lo, lo + WINDOW);
    }
    assert IpTimes(notes, key) + [] == IpTimes(notes, key);
    EmptyWindow(key, lo, lo + WINDOW);
  }

  /** An admitted check saw fewer than 5 failures of each key in any window it falls before the end of. */
  lemma AdmittedSawFew(notes: seq<Note>, login: Login, now: Time, lo: Time)
    requires Allows(notes, login.ip, login.email, now) && now <= lo + WINDOW
    ensures IpFailures(notes, login.ip, lo) < MAX_FAILURES && EmailFailures(notes, login.email, lo) < MAX_FAILURES
  {
    WindowInFrom(IpTimes(notes, login.ip), lo, lo + WINDOW, now - WINDOW);
    WindowInFrom(EmailTimes(notes, login.email), lo, lo + WINDOW, now - WINDOW);
  }

  /** While the window is open, failures in it and logins that can still add one stay within the bound. */
  ghost predicate Bounded(s: State, key: string, lo: Time, c: nat, open: bool) {
    && IpFailures(s.notes, key, lo) + (if open then ByIp(s.pending, key) else 0) <= MAX_FAILURES - 1 + c
    && EmailFailures(s.notes, key, lo) + (if open then ByEmail(s.pending, key) else 0) <= MAX_FAILURES - 1 + c
  }

  lemma StepKeepsBound(s: State, step: Step, key: string, lo: Time, c: nat)
    requires Bounded(s, key, lo, c, step.time <= lo + WINDOW)
    requires ByIp(Next(s, step).pending, key) <= c && ByEmail(Next(s, step).pending, key) <= c
    ensures Bounded(Next(s, step), key, lo, c, step.time <= lo + WINDOW)
  {
    hide IpFailures, EmailFailures, ByIp, ByEmail, Allows;
    match step {
      case Checked(login, now) =>
        CountsConcat(s.pending, [login], key);
        CountsOne(login, key);
        if Allows(s.notes, login.ip, login.email, now) && now <= lo + WINDOW {
          AdmittedSawFew(s.notes, login, now, lo);
        }
      case Recorded(index, verified, now) =>
        if index < |s.pending| {
          var login := s.pending[index];
          CountsWithout(s.pending, index, key);
          NoteCounts(s.notes, if verified then Succeeded(login.email) else Failed(login.ip, login.email, now), key, lo);
        }
    }
  }

  lemma {:induction false} RunIsBounded(steps: seq<Step>, key: string, lo: Time, c: nat)
    requires Timed(steps) && AtMost(steps, key, c)
    ensures Bounded(After(steps), key, lo, c, steps == [] || steps[|steps| - 1].time <= lo + WINDOW)
  {
    hide Next, Allows;
    if steps == [] {
      EmptyWindow(key, lo, lo + WINDOW);
    } else {
      var front, step := steps[..|steps| - 1], steps[|steps| - 1];
      assert forall i | 0 <= i <= |front| :: front[..i] == steps[..i];
      RunIsBounded(front, key, lo, c);
      assert steps[..|steps|] == steps;
      hide Bounded, After;
      CloseWindow(After(front), key, lo, c, front == [] || front[|front| - 1].time <= lo + WINDOW,
                  step.time <= lo + WINDOW);
      StepKeepsBound(After(front), step, key, lo, c);
    }
  }

  lemma CloseWindow(s: State, key: string, lo: Time, c: nat, open: bool, stillOpen: bool)
    requires Bounded(s, key, lo, c, open) && (stillOpen ==> open)
    ensures Bounded(s, key, lo, c, stillOpen)
  {
  }

  /**
   Under every interleaving with at most `c` logins of the address under way at once, a closed window of 60
   seconds holds at most 4 + `c` failures of it; likewise for an email since its last success.
   */
  lemma InterleavedFailureBound(steps: seq<Step>, key: string, lo: Time, c: nat)
    requires Timed(steps) && AtMost(steps, key, c)
    ensures IpFailures(After(steps).notes, key, lo) <= MAX_FAILURES - 1 + c
    ensures EmailFailures(After(steps).notes, key, lo) <= MAX_FAILURES - 1 + c
  {
    RunIsBounded(steps, key, lo, c);
  }

  // ---------- the bound is reached ----------

  function Repeat<T>(x: T, n: nat): (r: seq<T>)
    ensures |r| == n && forall i | 0 <= i < n :: r[i] == x
  {
    if n == 0 then [] else Repeat(x, n - 1) + [x]
  }

  function Failures(login: Login, n: nat): seq<Note> {
    Repeat(Failed(login.ip, login.email, 0.0), n)
  }

  lemma {:induction false} FailuresTimes(login: Login, n: nat)
    ensures IpTimes(Failures(login, n), login.ip) == Repeat(0.0, n)
    ensures EmailTimes(Failures(login, n), login.email) == Repeat(0.0, n)
  {
    if n == 0 {
    } else {
      FailuresTimes(login, n - 1);
      hide IpTimes, EmailTimes;
      AppendedTimes(Failures(login, n - 1), Failed(login.ip, login.email, 0.0), login.ip);
      AppendedTimes(Failures(login, n - 1), Failed(login.ip, login.email, 0.0), login.email);
    }
  }

  lemma {:induction false} RepeatedTimes(n: nat)
    ensures |From(Repeat(0.0, n), 0.0 - WINDOW)| == n && |Window(Repeat(0.0, n), 0.0, WINDOW)| == n
  {
    if n == 0 {
    } else {
      assert Repeat(0.0, n)[1..] == Repeat(0.0, n - 1);
      RepeatedTimes(n - 1);
    }
  }

  lemma FailuresAllow(login: Login, n: nat)
    ensures Allows(Failures(login, n), login.ip, login.email, 0.0) <==> n < MAX_FAILURES
    ensures IpFailures(Failures(login, n), login.ip, 0.0) == n
  {
    FailuresTimes(login, n);
    RepeatedTimes(n);
  }

  lemma {:induction false} CountsUpTo(pending: seq<Login>, key: string)
    ensures ByIp(pending, key) <= |pending| && ByEmail(pending, key) <= |pending|
  {
    if pending == [] {
    } else {
      CountsUpTo(pending[1..], key);
    }
  }

  /** A run at time 0 that never has more than `c` logins under way. */
  ghost predicate Burst(steps: seq<Step>, s: State, key: string, c: nat) {
    && (forall i | 0 <= i < |steps| :: steps[i].time == 0.0)
    && AtMost(steps, key, c) && After(steps) == s
  }

  lemma BurstStep(steps: seq<Step>, s: State, step: Step, key: string, c: nat)
    requires Burst(steps, s, key, c) && step.time == 0.0 && |Next(s, step).pending| <= c
    ensures Burst(steps + [step], Next(s, step), key, c)
  {
    hide Next;
    var longer := steps + [step];
    assert longer[..|longer| - 1] == steps;
    CountsUpTo(Next(s, step).pending, key);
    forall i | 0 <= i <= |longer|
      ensures ByIp(After(longer[..i]).pending, key) <= c && ByEmail(After(longer[..i]).pending, key) <= c
    {
      assert i <= |steps| ==> longer[..i] == steps[..i];
      assert longer[..|longer|] == longer;
    }
  }

  /** Four failures one after the other, then `c` checks, then `c` records: the bound is met exactly. */
  lemma InterleavedBoundIsReached(login: Login, c: nat) returns (steps: seq<Step>)
    requires c > 0
    ensures Timed(steps) && AtMost(steps, login.ip, c)
    ensures IpFailures(After(steps).notes, login.ip, 0.0) == MAX_FAILURES - 1 + c
  {
    hide IpFailures, Allows, AtMost, After, IpTimes, EmailTimes, ByIp, ByEmail;
    steps := NothingYet(login.ip, c);
    var n: nat := 0;
    while n < 4
      invariant n <= 4 && Burst(steps, State(Failures(login, n), []), login.ip, c)
    {
      FailuresAllow(login, n);
      var s := State(Failures(login, n), []);
      BurstStep(steps, s, Checked(login, 0.0), login.ip, c);
      BurstStep(steps + [Checked(login, 0.0)], s.(pending := [login]), Recorded(0, false, 0.0), login.ip, c);
      steps := steps + [Checked(login, 0.0)] + [Recorded(0, false, 0.0)];
      n := n + 1;
    }
    FailuresAllow(login, 4);
    var k: nat := 0;
    while k < c
      invariant k <= c && Burst(steps, State(Failures(login, 4), Repeat(login, k)), login.ip, c)
    {
      BurstStep(steps, State(Failures(login, 4), Repeat(login, k)), Checked(login, 0.0), login.ip, c);
      steps := steps + [Checked(login, 0.0)];
      k := k + 1;
    }
    var j: nat := 0;
    while j < c
      invariant j <= c && Burst(steps, State(Failures(login, 4 + j), Repeat(login, c - j)), login.ip, c)
    {
      assert Repeat(login, c - j)[..0] + Repeat(login, c - j)[1..] == Repeat(login, c - j - 1);
      BurstStep(steps, State(Failures(login, 4 + j), Repeat(login, c - j)), Recorded(0, false, 0.0), login.ip, c);
      steps := steps + [Recorded(0, false, 0.0)];
      j := j + 1;
    }
    FailuresAllow(login, 4 + c);
  }

  lemma NothingYet(key: string, c: nat) returns (steps: seq<Step>)
    ensures steps == [] && Burst(steps, State([], []), key, c)
  {
    steps := [];
    assert steps[..0] == [];
  }
}
