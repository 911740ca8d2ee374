/** The request limiter: every admitted attempt counts. */
module RateLimit {
  import opened Clock
  import opened SlidingWindow

  datatype Request = Request(key: string, time: Time)

  function TimesOf(history: seq<Request>, key: string): (r: seq<Time>)
    ensures |r| <= |history|
  {
    if history == [] then []
    else
      var front, last := TimesOf(history[..|history| - 1], key), history[|history| - 1];
      if last.key == key then front + [last.time] else front
  }

  predicate Ordered(calls: seq<Request>) {
    forall i, j | 0 <= i < j < |calls| :: calls[i].time <= calls[j].time
  }

  predicate AllBy(history: seq<Request>, now: Time) {
    forall i | 0 <= i < |history| :: history[i].time <= now
  }

  /** Admission as a function of everything admitted before. */
  predicate Admits(max: int, window: Time, history: seq<Request>, key: string, now: Time) {
    |From(TimesOf(history, key), now - window)| < max
  }

  /** What a fresh limiter has admitted after a sequence of checks. */
  function Admitted(max: int, window: Time, calls: seq<Request>): seq<Request> {
    if calls == [] then []
    else
      var front, call := Admitted(max, window, calls[..|calls| - 1]), calls[|calls| - 1];
      if Admits(max, window, front, call.key, call.time) then front + [call] else front
  }

  // ---------- facts about histories ----------

  lemma {:induction false} TimesBy(history: seq<Request>, key: string, now: Time)
    requires AllBy(history, now)
    ensures forall t <- TimesOf(history, key) :: t <= now
  {
    if history == [] {
    } else {
      TimesBy(history[..|history| - 1], key, now);
    }
  }

  lemma {:induction false} TimesSorted(history: seq<Request>, key: string)
    requires Ordered(history)
    ensures Sorted(TimesOf(history, key))
  {
    if history == [] {
    } else {
      var front, last := history[..|history| - 1], history[|history| - 1];
      TimesSorted(front, key);
      TimesBy(front, key, last.time);
      var times := TimesOf(front, key);
      assert forall i | 0 <= i < |times| :: times[i] in times;
    }
  }

  lemma AppendedTimes(history: seq<Request>, request: Request, key: string)
    ensures TimesOf(history + [request], key) ==
            if key == request.key then TimesOf(history, key) + [request.time] else TimesOf(history, key)
  {
    assert (history + [request])[..|history|] == history;
  }

  lemma {:induction false} AdmittedOrdered(max: int, window: Time, calls: seq<Request>, now: Time)
    requires Ordered(calls) && AllBy(calls, now)
    ensures Ordered(Admitted(max, window, calls)) && AllBy(Admitted(max, window, calls), now)
  {
    hide Admits;
    if calls == [] {
    } else {
      AdmittedOrdered(max, window, calls[..|calls| - 1], calls[|calls| - 1].time);
    }
  }

  lemma AdmittedSnoc(max: int, window: Time, calls: seq<Request>, call: Request)
    ensures var front := Admitted(max, window, calls);
            Admitted(max, window, calls + [call]) ==
            if Admits(max, window, front, call.key, call.time) then front + [call] else front
  {
    assert (calls + [call])[..|calls|] == calls;
  }

  lemma OrderedSnoc(calls: seq<Request>, clock: Time, call: Request)
    requires Ordered(calls) && AllBy(calls, clock) && clock <= call.time
    ensures Ordered(calls + [call]) && AllBy(calls + [call], call.time)
  {
  }

  // ---------- the limiter ----------

  /** The store holds, for every key, the admitted times it has not dropped as older than `cutoff`. */
  ghost predicate Tracks(store: map<string, seq<Time>>, history: seq<Request>, cutoff: Time) {
    forall key: string :: Keeps(Bucket(store, key), TimesOf(history, key), cutoff)
  }

  /** One check on the store and the history keeps them in step. */
  lemma TracksCheck(store: map<string, seq<Time>>, history: seq<Request>, old': Time, cutoff: Time,
                    key: string, now: Time)
    requires Tracks(store, history, old') && Ordered(history) && old' <= cutoff
    ensures var bucket := Pruned(Bucket(store, key), cutoff);
            && bucket == From(TimesOf(history, key), cutoff)
            && Tracks(store[key := bucket], history, cutoff)
            && Tracks(store[key := bucket + [now]], history + [Request(key, now)], cutoff)
  {
    var bucket := Pruned(Bucket(store, key), cutoff);
    assert Keeps(Bucket(store, key), TimesOf(history, key), old');
    TimesSorted(history, key);
    PrunedIsFrom(Bucket(store, key), TimesOf(history, key), old', cutoff);
    hide Pruned, From, TimesOf, Keeps;
    forall k: string
      ensures Keeps(Bucket(store[key := bucket], k), TimesOf(history, k), cutoff)
      ensures Keeps(Bucket(store[key := bucket + [now]], k), TimesOf(history + [Request(key, now)], k), cutoff)
    {
      AppendedTimes(history, Request(key, now), k);
      if k == key {
        KeepsAppended(bucket, TimesOf(history, k), cutoff, now);
      } else {
        KeepsLater(Bucket(store, k), TimesOf(history, k), old', cutoff);
      }
    }
  }

  class RequestRateLimiter {
    const max: int
    const window: Time
    var store: map<string, seq<Time>>
    ghost var calls: seq<Request>   // all checks since the last clear
    ghost var clock: Time           // time of the last check

    ghost predicate Valid()
      reads this
    {
      && Ordered(calls) && AllBy(calls, clock)
      && Tracks(store, Admitted(max, window, calls), clock - window)
    }

    constructor (max: int, window: Time, now: Time)
      ensures Valid() && this.max == max && this.window == window && calls == [] && clock == now
    {
      this.max, this.window := max, window;
      store, calls, clock := map[], [], now;
    }

    /** Refuses exactly when the window already holds `max` admitted requests of this key. */
    method Check(key: string, now: Time) returns (ok: bool)
      requires Valid() && clock <= now
      modifies this
      ensures Valid() && clock == now && calls == old(calls) + [Request(key, now)]
      ensures ok == Admits(max, window, Admitted(max, window, old(calls)), key, now)
    {
      hide Pruned, Tracks, Admitted, Ordered, AllBy, From, TimesOf;
      var cutoff := now - window;
      ghost var history := Admitted(max, window, calls);
      AdmittedOrdered(max, window, calls, clock);
      TracksCheck(store, history, clock - window, cutoff, key, now);
      AdmittedSnoc(max, window, calls, Request(key, now));
      OrderedSnoc(calls, clock, Request(key, now));
      clock, calls := now, calls + [Request(key, now)];
      var bucket := Prune(Bucket(store, key), cutoff);
      if |bucket| >= max {
        store := store[key := bucket];
        return false;
      }
      store := store[key := bucket + [now]];
      return true;
    }

    method Clear()
      requires Valid()
      modifies this
      ensures Valid() && calls == [] && clock == old(clock)
    {
      store, calls := map[], [];
    }
  }

  // ---------- all runs ----------

  /** Over every run, every closed window of the configured length holds at most `max` admissions. */
  lemma {:induction false} WindowBound(max: nat, window: Time, calls: seq<Request>, key: string, lo: Time)
    requires Ordered(calls)
    ensures |Window(TimesOf(Admitted(max, window, calls), key), lo, lo + window)| <= max
  {
    hide From, TimesOf, Window;
    if calls == [] {
      EmptyWindow(key, lo, lo + window);
    } else {
      var before, call := calls[..|calls| - 1], calls[|calls| - 1];
      WindowBound(max, window, before, key, lo);
      var front := Admitted(max, window, before);
      AppendedTimes(front, call, key);
      WindowAppend(TimesOf(front, key), call.time, lo, lo + window);
      if lo <= call.time <= lo + window {
        WindowInFrom(TimesOf(front, key), lo, lo + window, call.time - window);
      }
    }
  }

  lemma EmptyWindow(key: string, lo: Time, hi: Time)
    ensures Window(TimesOf([], key), lo, hi) == []
  {
  }
}
