/** Time stamps in a sliding window, and the front-pruned bucket that stands for a whole history. */
module SlidingWindow {
  import opened Clock

  predicate Sorted(times: seq<Time>) {
    forall i, j | 0 <= i < j < |times| :: times[i] <= times[j]
  }

  /** The times at or after `lo`. */
  function From(times: seq<Time>, lo: Time): (r: seq<Time>)
    ensures |r| <= |times|
  {
    if times == [] then []
    else if times[0] >= lo then [times[0]] + From(times[1..], lo)
    else From(times[1..], lo)
  }

  /** The times in the closed window from `lo` to `hi`. */
  function Window(times: seq<Time>, lo: Time, hi: Time): (r: seq<Time>)
    ensures |r| <= |times|
  {
    if times == [] then []
    else if lo <= times[0] <= hi then [times[0]] + Window(times[1..], lo, hi)
    else Window(times[1..], lo, hi)
  }

  /** Drop times before `cutoff` from the front, and only there. */
  function Pruned(bucket: seq<Time>, cutoff: Time): seq<Time> {
    if bucket != [] && bucket[0] < cutoff then Pruned(bucket[1..], cutoff) else bucket
  }

  method Prune(bucket: seq<Time>, cutoff: Time) returns (kept: seq<Time>)
    ensures kept == Pruned(bucket, cutoff)
  {
    kept := bucket;
    while kept != [] && kept[0] < cutoff
      invariant Pruned(kept, cutoff) == Pruned(bucket, cutoff)
      decreases |kept|
    {
      kept := kept[1..];
    }
  }

  /** A bucket of a dictionary whose missing entries are empty. */
  function Bucket(store: map<string, seq<Time>>, key: string): seq<Time> {
    if key in store then store[key] else []
  }

  /** `bucket` is what is left of `times` after dropping some times before `cutoff`. */
  predicate Keeps(bucket: seq<Time>, times: seq<Time>, cutoff: Time) {
    && |bucket| <= |times|
    && bucket == times[|times| - |bucket|..]
    && forall i | 0 <= i < |times| - |bucket| :: times[i] < cutoff
  }

  lemma {:induction false} FromIsSuffix(times: seq<Time>, cutoff: Time, k: nat)
    requires k <= |times| && forall i | 0 <= i < |times| :: times[i] >= cutoff <==> k <= i
    ensures From(times, cutoff) == times[k..]
  {
    if times == [] {
    } else {
      FromIsSuffix(times[1..], cutoff, if k == 0 then 0 else k - 1);
    }
  }

  /** Pruning a bucket equals filtering the whole history, because histories are sorted. */
  lemma {:induction false} PrunedIsFrom(bucket: seq<Time>, times: seq<Time>, old': Time, cutoff: Time)
    requires Sorted(times) && Keeps(bucket, times, old') && old' <= cutoff
    ensures Pruned(bucket, cutoff) == From(times, cutoff)
    ensures Keeps(Pruned(bucket, cutoff), times, cutoff)
    decreases |bucket|
  {
    var k := |times| - |bucket|;
    if bucket != [] && bucket[0] < cutoff {
      assert times[k] == bucket[0];
      PrunedIsFrom(bucket[1..], times, cutoff, cutoff);
    } else {
      assert bucket != [] ==> times[k] == bucket[0];
      FromIsSuffix(times, cutoff, k);
    }
  }

  lemma KeepsLater(bucket: seq<Time>, times: seq<Time>, old': Time, cutoff: Time)
    requires Keeps(bucket, times, old') && old' <= cutoff
    ensures Keeps(bucket, times, cutoff)
  {
  }

  lemma {:induction false} WindowAppend(times: seq<Time>, t: Time, lo: Time, hi: Time)
    ensures Window(times + [t], lo, hi) == Window(times, lo, hi) + if lo <= t <= hi then [t] else []
  {
    if times == [] {
    } else {
      assert (times + [t])[1..] == times[1..] + [t];
      WindowAppend(times[1..], t, lo, hi);
    }
  }

  /** A window that starts no earlier than `from` holds no more times than there are from there on. */
  lemma {:induction false} WindowInFrom(times: seq<Time>, lo: Time, hi: Time, from: Time)
    requires from <= lo
    ensures |Window(times, lo, hi)| <= |From(times, from)|
  {
    if times == [] {
    } else {
      WindowInFrom(times[1..], lo, hi, from);
    }
  }

  lemma KeepsAppended(bucket: seq<Time>, times: seq<Time>, cutoff: Time, now: Time)
    requires Keeps(bucket, times, cutoff)
    ensures Keeps(bucket + [now], times + [now], cutoff)
  {
  }
}
