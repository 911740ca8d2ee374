/** The dual-key failed-attempt limiter and the login route: check, verify, then record. */
module LoginLimiter {
  import opened Clock
  import opened SlidingWindow

  const WINDOW: Time := 60.0
  const MAX_FAILURES: nat := 5

  /** What the limiter is told, in order. */
  datatype Note =
    | Failed(ip: string, email: string, time: Time)
    | Succeeded(email: string)

  /** Failure times of one address. */
  function IpTimes(notes: seq<Note>, ip: string): (r: seq<Time>)
    ensures |r| <= |notes|
  {
    if notes == [] then []
    else
      var front, last := IpTimes(notes[..|notes| - 1], ip), notes[|notes| - 1];
      if last.Failed? && last.ip == ip then front + [last.time] else front
  }

  /** Failure times of one email since its last success. */
  function EmailTimes(notes: seq<Note>, email: string): (r: seq<Time>)
    ensures |r| <= |notes|
  {
    if notes == [] then []
    else
      var front, last := EmailTimes(notes[..|notes| - 1], email), notes[|notes| - 1];
      if last.email != email then front
      else if last.Failed? then front + [last.time]
      else []
  }

  predicate NotesBy(notes: seq<Note>, now: Time) {
    forall i | 0 <= i < |notes| && notes[i].Failed? :: notes[i].time <= now
  }

  predicate NotesOrdered(notes: seq<Note>) {
    forall i, j | 0 <= i < j < |notes| && notes[i].Failed? && notes[j].Failed? :: notes[i].time <= notes[j].time
  }

  /** The documented rule: both counts are under the limit. */
  predicate Allows(notes: seq<Note>, ip: string, email: string, now: Time) {
    && |From(IpTimes(notes, ip), now - WINDOW)| < MAX_FAILURES
    && |From(EmailTimes(notes, email), now - WINDOW)| < MAX_FAILURES
  }

  // ---------- facts about notes ----------

  lemma {:induction false} TimesBy(notes: seq<Note>, key: string, now: Time)
    requires NotesBy(notes, now)
    ensures forall t <- IpTimes(notes, key) :: t <= now
    ensures forall t <- EmailTimes(notes, key) :: t <= now
  {
    if notes == [] {
    } else {
      TimesBy(notes[..|notes| - 1], key, now);
    }
  }

  lemma SortedAppend(times: seq<Time>, t: Time)
    requires Sorted(times) && forall u <- times :: u <= t
    ensures Sorted(times + [t])
  {
    assert forall i | 0 <= i < |times| :: times[i] in times;
  }

  lemma {:induction false} TimesSorted(notes: seq<Note>, key: string)
    requires NotesOrdered(notes)
    ensures Sorted(IpTimes(notes, key)) && Sorted(EmailTimes(notes, key))
  {
    if notes == [] {
    } else {
      var front, last := notes[..|notes| - 1], notes[|notes| - 1];
      TimesSorted(front, key);
      if last.Failed? {
        TimesBy(front, key, last.time);
        SortedAppend(IpTimes(front, key), last.time);
        SortedAppend(EmailTimes(front, key), last.time);
      }
    }
  }

  lemma AppendedTimes(notes: seq<Note>, note: Note, key: string)
    ensures IpTimes(notes + [note], key) ==
            IpTimes(notes, key) + if note.Failed? && note.ip == key then [note.time] else []
    ensures EmailTimes(notes + [note], key) ==
            if note.email != key then EmailTimes(notes, key)
            else if note.Failed? then EmailTimes(notes, key) + [note.time]
            else []
  {
    assert (notes + [note])[..|notes|] == notes;
  }

  // ---------- the limiter ----------

  ghost predicate TracksIp(store: map<string, seq<Time>>, notes: seq<Note>, cutoff: Time) {
    forall key: string :: Keeps(Bucket(store, key), IpTimes(notes, key), cutoff)
  }

  ghost predicate TracksEmail(store: map<string, seq<Time>>, notes: seq<Note>, cutoff: Time) {
    forall key: string :: Keeps(Bucket(store, key), EmailTimes(notes, key), cutoff)
  }

  /** Pruning one bucket of the address store. */
  lemma TracksIpPruned(store: map<string, seq<Time>>, notes: seq<Note>, old': Time, cutoff: Time, ip: string)
    requires TracksIp(store, notes, old') && NotesOrdered(notes) && old' <= cutoff
    ensures var bucket := Pruned(Bucket(store, ip), cutoff);
            bucket == From(IpTimes(notes, ip), cutoff) && TracksIp(store[ip := bucket], notes, cutoff)
  {
    var bucket := Pruned(Bucket(store, ip), cutoff);
    assert Keeps(Bucket(store, ip), IpTimes(notes, ip), old');
    TimesSorted(notes, ip);
    PrunedIsFrom(Bucket(store, ip), IpTimes(notes, ip), old', cutoff);
    hide Pruned, From, IpTimes, Keeps;
    forall k: string
      ensures Keeps(Bucket(store[ip := bucket], k), IpTimes(notes, k), cutoff)
    {
      if k != ip {
        KeepsLater(Bucket(store, k), IpTimes(notes, k), old', cutoff);
      }
    }
  }

  lemma TracksEmailPruned(store: map<string, seq<Time>>, notes: seq<Note>, old': Time, cutoff: Time, email: string)
    requires TracksEmail(store, notes, old') && NotesOrdered(notes) && old' <= cutoff
    ensures var bucket := Pruned(Bucket(store, email), cutoff);
            bucket == From(EmailTimes(notes, email), cutoff) && TracksEmail(store[email := bucket], notes, cutoff)
  {
    var bucket := Pruned(Bucket(store, email), cutoff);
    assert Keeps(Bucket(store, email), EmailTimes(notes, email), old');
    TimesSorted(notes, email);
    PrunedIsFrom(Bucket(store, email), EmailTimes(notes, email), old', cutoff);
    hide Pruned, From, EmailTimes, Keeps;
    forall k: string
      ensures Keeps(Bucket(store[email := bucket], k), EmailTimes(notes, k), cutoff)
    {
      if k != email {
        KeepsLater(Bucket(store, k), EmailTimes(notes, k), old', cutoff);
      }
    }
  }

  /** A bucket that was not pruned stays behind, but never falsely. */
  lemma TracksLater(ips: map<string, seq<Time>>, emails: map<string, seq<Time>>, notes: seq<Note>, old': Time,
                    cutoff: Time)
    requires TracksIp(ips, notes, old') && TracksEmail(emails, notes, old') && old' <= cutoff
    ensures TracksIp(ips, notes, cutoff) && TracksEmail(emails, notes, cutoff)
  {
    hide Keeps;
    forall k: string
      ensures Keeps(Bucket(ips, k), IpTimes(notes, k), cutoff)
      ensures Keeps(Bucket(emails, k), EmailTimes(notes, k), cutoff)
    {
      KeepsLater(Bucket(ips, k), IpTimes(notes, k), old', cutoff);
      KeepsLater(Bucket(emails, k), EmailTimes(notes, k), old', cutoff);
    }
  }

  lemma TracksNoted(ips: map<string, seq<Time>>, emails: map<string, seq<Time>>, notes: seq<Note>,
                    cutoff: Time, note: Note)
    requires TracksIp(ips, notes, cutoff) && TracksEmail(emails, notes, cutoff)
    ensures var notes' := notes + [note];
            match note
            case Failed(ip, email, t) =>
              && TracksIp(ips[ip := Bucket(ips, ip) + [t]], notes', cutoff)
              && TracksEmail(emails[email := Bucket(emails, email) + [t]], notes', cutoff)
            case Succeeded(email) =>
              TracksIp(ips, notes', cutoff) && TracksEmail(emails[email := []], notes', cutoff)
  {
    hide Keeps;
    var notes' := notes + [note];
    var ips' := if note.Failed? then ips[note.ip := Bucket(ips, note.ip) + [note.time]] else ips;
    var emails' := emails[note.email := if note.Failed? then Bucket(emails, note.email) + [note.time] else []];
    forall k: string
      ensures Keeps(Bucket(ips', k), IpTimes(notes', k), cutoff)
      ensures Keeps(Bucket(emails', k), EmailTimes(notes', k), cutoff)
    {
      AppendedTimes(notes, note, k);
      if note.Failed? {
        KeepsAppended(Bucket(ips, k), IpTimes(notes, k), cutoff, note.time);
        KeepsAppended(Bucket(emails, k), EmailTimes(notes, k), cutoff, note.time);
      }
      KeepsNone(cutoff);
      assert IpTimes(notes, k) + [] == IpTimes(notes, k);
    }
  }

  lemma KeepsNone(cutoff: Time)
    ensures Keeps([], [], cutoff)
  {
  }

  class FailureRateLimiter {
    var ips: map<string, seq<Time>>
    var emails: map<string, seq<Time>>
    ghost var notes: seq<Note>
    ghost var clock: Time

    ghost predicate Valid()
      reads this
    {
      && NotesOrdered(notes) && NotesBy(notes, clock)
      && TracksIp(ips, notes, clock - WINDOW) && TracksEmail(emails, notes, clock - WINDOW)
    }

    constructor (now: Time)
      ensures Valid() && notes == [] && clock == now
    {
      ips, emails, notes, clock := map[], map[], [], now;
    }

    /** Answers the documented rule, although a full address bucket leaves the email one unpruned. */
    method Check(ip: string, email: string, now: Time) returns (ok: bool)
      requires Valid() && clock <= now
      modifies this
      ensures Valid() && clock == now && notes == old(notes)
      ensures ok == Allows(notes, ip, email, now)
    {
      hide Pruned, TracksIp, TracksEmail, From, IpTimes, EmailTimes;
      var cutoff := now - WINDOW;
      TracksLater(ips, emails, notes, clock - WINDOW, cutoff);
      TracksIpPruned(ips, notes, clock - WINDOW, cutoff, ip);
      TracksEmailPruned(emails, notes, clock - WINDOW, cutoff, email);
      clock := now;
      var bucket := Prune(Bucket(ips, ip), cutoff);
      ips := ips[ip := bucket];
      if |bucket| >= MAX_FAILURES {
        return false;
      }
      bucket := Prune(Bucket(emails, email), cutoff);
      emails := emails[email := bucket];
      return |bucket| < MAX_FAILURES;
    }

    method RecordFailure(ip: string, email: string, now: Time)
      requires Valid() && clock <= now
      modifies this
      ensures Valid() && clock == now && notes == old(notes) + [Failed(ip, email, now)]
    {
      hide TracksIp, TracksEmail, IpTimes, EmailTimes;
      TracksLater(ips, emails, notes, clock - WINDOW, now - WINDOW);
      TracksNoted(ips, emails, notes, now - WINDOW, Failed(ip, email, now));
      ips := ips[ip := Bucket(ips, ip) + [now]];
      emails := emails[email := Bucket(emails, email) + [now]];
      notes, clock := notes + [Failed(ip, email, now)], now;
    }

    /** The email bucket is emptied, the address keeps its history. */
    method RecordSuccess(email: string)
      requires Valid()
      modifies this
      ensures Valid() && clock == old(clock) && notes == old(notes) + [Succeeded(email)]
    {
      hide TracksIp, TracksEmail, IpTimes, EmailTimes;
      TracksNoted(ips, emails, notes, clock - WINDOW, Succeeded(email));
      emails := emails[email := []];
      notes := notes + [Succeeded(email)];
    }

    method Clear()
      requires Valid()
      modifies this
      ensures Valid() && notes == [] && clock == old(clock)
    {
      ips, emails, notes := map[], map[], [];
    }
  }

  // ---------- the login route ----------

  datatype Status = TooMany | BadCredentials | LoggedIn

  /** One login: when it is checked, whether the credentials verify, when it is recorded. */
  datatype Attempt = Attempt(ip: string, email: string, checked: Time, verified: bool, recorded: Time)

  function LoginStatus(notes: seq<Note>, a: Attempt): Status {
    if !Allows(notes, a.ip, a.email, a.checked) then TooMany
    else if a.verified then LoggedIn
    else BadCredentials
  }

  function LoginNotes(notes: seq<Note>, a: Attempt): seq<Note> {
    match LoginStatus(notes, a)
    case TooMany => notes
    case BadCredentials => notes + [Failed(a.ip, a.email, a.recorded)]
    case LoggedIn => notes + [Succeeded(a.email)]
  }

  method Login(limiter: FailureRateLimiter, a: Attempt) returns (status: Status)
    requires limiter.Valid() && limiter.clock <= a.checked <= a.recorded
    modifies limiter
    ensures limiter.Valid() && limiter.clock <= a.recorded
    ensures status == LoginStatus(old(limiter.notes), a)
    ensures limiter.notes == LoginNotes(old(limiter.notes), a)
  {
    hide Allows;
    var ok := limiter.Check(a.ip, a.email, a.checked);
    if !ok {
      return TooMany;
    }
    if !a.verified {
      limiter.RecordFailure(a.ip, a.email, a.recorded);
      return BadCredentials;
    }
    limiter.RecordSuccess(a.email);
    return LoggedIn;
  }

  // ---------- all sequences of logins ----------

  /** Logins one after the other, each checked before it is recorded. */
  predicate Sequential(attempts: seq<Attempt>) {
    && (forall i | 0 <= i < |attempts| :: attempts[i].checked <= attempts[i].recorded)
    && forall i, j | 0 <= i < j < |attempts| :: attempts[i].recorded <= attempts[j].checked
  }

  function AllNotes(attempts: seq<Attempt>): seq<Note> {
    if attempts == [] then []
    else LoginNotes(AllNotes(attempts[..|attempts| - 1]), attempts[|attempts| - 1])
  }

  lemma EmptyWindow(key: string, lo: Time, hi: Time)
    ensures Window(IpTimes([], key), lo, hi) == [] && Window(EmailTimes([], key), lo, hi) == []
    ensures Window([], lo, hi) == []
  {
  }

  /**
   Sequential logins: every closed window of 60 seconds holds at most 5 failures of one address,
   and at most 5 of one email since its last success.
   */
  lemma {:induction false} FailureBound(attempts: seq<Attempt>, key: string, lo: Time)
    requires Sequential(attempts)
    ensures |Window(IpTimes(AllNotes(attempts), key), lo, lo + WINDOW)| <= MAX_FAILURES
    ensures |Window(EmailTimes(AllNotes(attempts), key), lo, lo + WINDOW)| <= MAX_FAILURES
  {
    hide From, IpTimes, EmailTimes, Window;
    EmptyWindow(key, lo, lo + WINDOW);
    if attempts == [] {
    } else {
      var before, a := attempts[..|attempts| - 1], attempts[|attempts| - 1];
      FailureBound(before, key, lo);
      var notes := AllNotes(before);
      var hi := lo + WINDOW;
      match LoginStatus(notes, a) {
        case TooMany =>
        case LoggedIn =>
          AppendedTimes(notes, Succeeded(a.email), key);
          assert IpTimes(notes, key) + [] == IpTimes(notes, key);
        case BadCredentials =>
          AppendedTimes(notes, Failed(a.ip, a.email, a.recorded), key);
          assert IpTimes(notes, key) + [] == IpTimes(notes, key);
          WindowAppend(IpTimes(notes, key), a.recorded, lo, hi);
          WindowAppend(EmailTimes(notes, key), a.recorded, lo, hi);
          if lo <= a.recorded <= hi {
            WindowInFrom(IpTimes(notes, key), lo, hi, a.checked - WINDOW);
            WindowInFrom(EmailTimes(notes, key), lo, hi, a.checked - WINDOW);
          }
      }
    }
  }
}
