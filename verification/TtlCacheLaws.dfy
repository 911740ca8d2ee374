/** Laws of the cache over every run: size, exactness of hits, residency of recent keys. */
module TtlCacheLaws {
  import opened Clock
  import opened Options
  import opened TtlCache

  predicate Distinct<V>(data: Data<V>) {
    forall i, j | 0 <= i < j < |data| :: data[i].key != data[j].key
  }

  predicate Resident<V>(data: Data<V>, key: string) {
    Find(data, key) < |data|
  }

  function Keys<V>(data: Data<V>): set<string> {
    set i | 0 <= i < |data| :: data[i].key
  }

  lemma ResidentKeys<V>(data: Data<V>, key: string)
    ensures Resident(data, key) <==> key in Keys(data)
    ensures key in Keys(data) <==> exists e <- data :: e.key == key
  {
    var p := Find(data, key);
    assert p < |data| ==> data[p].key == key;
    assert forall i | 0 <= i < |data| :: data[i] in data;
  }

  // ---------- what one operation does ----------

  lemma CutDistinct<V>(data: Data<V>, p: nat)
    requires Distinct(data) && p <= |data|
    ensures Distinct(Without(data, p))
  {
  }

  lemma CutMembers<V>(data: Data<V>, p: nat)
    requires Distinct(data) && p < |data|
    ensures forall e :: e in Without(data, p) <==> e in data && e.key != data[p].key
  {
    var r := Without(data, p);
    forall e
      ensures e in r <==> e in data && e.key != data[p].key
    {
      if e in data {
        var k :| 0 <= k < |data| && data[k] == e;
        assert k < p ==> r[k] == e;
        assert k > p ==> r[k - 1] == e;
      }
    }
  }

  lemma WithoutFacts<V>(data: Data<V>, key: string)
    requires Distinct(data)
    ensures var r := Without(data, Find(data, key));
            && Distinct(r) && |r| <= |data| && (Resident(data, key) ==> |r| == |data| - 1)
            && (forall e :: e in r <==> e in data && e.key != key)
  {
    hide Distinct;
    var p := Find(data, key);
    CutDistinct(data, p);
    if p < |data| {
      CutMembers(data, p);
    }
  }

  lemma {:induction false} EvictedIsSuffix<V>(data: Data<V>, max: nat)
    ensures Evicted(data, max) == data[if |data| > max then |data| - max else 0..]
  {
    if |data| > max {
      EvictedIsSuffix(data[1..], max);
    }
  }

  lemma FindUnique<V>(data: Data<V>, key: string, p: nat)
    requires Distinct(data) && p < |data| && data[p].key == key
    ensures Find(data, key) == p
  {
  }

  lemma AppendDistinct<V>(data: Data<V>, e: Entry<V>)
    requires Distinct(data) && forall x <- data :: x.key != e.key
    ensures Distinct(data + [e])
  {
    assert forall i | 0 <= i < |data| :: data[i] in data;
  }

  /** Size, distinct keys, and that nothing but the operation's own key is new. */
  lemma StepFacts<V>(max: nat, data: Data<V>, op: Op<V>)
    requires Distinct(data) && |data| <= max
    ensures var data' := Step(max, data, op);
            Distinct(data') && |data'| <= max
    ensures forall e <- Step(max, data, op) :: e in data || (op.DoPut? && e == Entry(op.key, op.value, op.now))
    ensures op.DoInvalidate? ==> forall e <- Step(max, data, op) :: e.key != op.key
    ensures op.DoPut? ==> forall e <- Step(max, data, op) :: e.key == op.key ==> e == Entry(op.key, op.value, op.now)
  {
    WithoutFacts(data, op.key);
    var p := Find(data, op.key);
    match op {
      case DoPut(key, value, now) => PutFacts(max, data, Entry(key, value, now));
      case DoGet(key, ttl, now) =>
        if p < |data| {
          hide Find, Without, Distinct;
          AppendDistinct(Without(data, p), data[p]);
        }
      case DoInvalidate(key) =>
    }
  }

  lemma PutFacts<V>(max: nat, data: Data<V>, e: Entry<V>)
    requires Distinct(data) && |data| <= max
    ensures var data' := Put(data, max, e.key, e.value, e.stamp);
            Distinct(data') && |data'| <= max
    ensures forall x <- Put(data, max, e.key, e.value, e.stamp) :: x == e || (x in data && x.key != e.key)
  {
    WithoutFacts(data, e.key);
    hide Find, Without, Evicted;
    var rest := Without(data, Find(data, e.key));
    AppendDistinct(rest, e);
    EvictedIsSuffix(rest + [e], max);
  }

  /** Over every run the cache holds at most `max` entries, with distinct keys. */
  lemma {:induction false} RunBounded<V>(max: nat, ops: seq<Op<V>>)
    ensures Distinct(Run(max, ops)) && |Run(max, ops)| <= max
  {
    hide Step;
    if ops == [] {
    } else {
      RunBounded(max, ops[..|ops| - 1]);
      StepFacts(max, Run(max, ops[..|ops| - 1]), ops[|ops| - 1]);
    }
  }

  // ---------- exactness ----------

  /** The last put of a key that no later invalidate revoked. */
  function LastPut<V>(ops: seq<Op<V>>, key: string): Option<Entry<V>> {
    if ops == [] then None
    else
      var last := ops[|ops| - 1];
      if last.key != key || last.DoGet? then LastPut(ops[..|ops| - 1], key)
      else if last.DoPut? then Some(Entry(key, last.value, last.now))
      else None
  }

  lemma {:induction false} EntriesAreLastPuts<V>(max: nat, ops: seq<Op<V>>)
    ensures forall e <- Run(max, ops) :: LastPut(ops, e.key) == Some(e)
  {
    hide Step;
    if ops == [] {
    } else {
      var front := ops[..|ops| - 1];
      EntriesAreLastPuts(max, front);
      RunBounded(max, front);
      StepFacts(max, Run(max, front), ops[|ops| - 1]);
    }
  }

  /** Every hit returns the latest put since the last invalidate, and that put is at most `ttl` old. */
  lemma HitIsLastPut<V>(max: nat, ops: seq<Op<V>>, key: string, ttl: int, now: Time)
    ensures var hit := GetFresh(Run(max, ops), key, ttl, now).hit;
            hit.Some? ==>
              && LastPut(ops, key).Some? && hit.value == LastPut(ops, key).value.value
              && now - LastPut(ops, key).value.stamp <= ttl as real && ttl > 0
  {
    EntriesAreLastPuts(max, ops);
    var data := Run(max, ops);
    var p := Find(data, key);
    if p < |data| {
      assert data[p] in data;
    }
  }

  /** A get hits exactly when the key is resident and its last put at most `ttl` old, and then with that value. */
  lemma HitExact<V>(max: nat, ops: seq<Op<V>>, key: string, ttl: int, now: Time)
    ensures Resident(Run(max, ops), key) ==> LastPut(ops, key).Some?
    ensures var data := Run(max, ops);
            GetFresh(data, key, ttl, now).hit ==
              if Resident(data, key) && ttl > 0 && now - LastPut(ops, key).value.stamp <= ttl as real
              then Some(LastPut(ops, key).value.value) else None
  {
    EntriesAreLastPuts(max, ops);
    var data := Run(max, ops);
    var p := Find(data, key);
    if p < |data| {
      assert data[p] in data;
    }
  }

  // ---------- residency ----------

  /** Does the operation touch its key, that is, move it to the recent end? */
  predicate Touches<V>(data: Data<V>, op: Op<V>) {
    op.DoPut? || (op.DoGet? && GetFresh(data, op.key, op.ttl, op.now).hit.Some?)
  }

  /** Does the operation remove its key for good: an invalidate, or a get that finds it expired? */
  predicate Removes<V>(data: Data<V>, op: Op<V>) {
    op.DoInvalidate? || (op.DoGet? && Resident(data, op.key) && op.ttl > 0 && !Touches(data, op))
  }

  /** The other keys touched since the last touch of `key`; `None` when it was removed or never touched. */
  function SinceTouch<V>(max: nat, ops: seq<Op<V>>, key: string): Option<set<string>> {
    if ops == [] then None
    else
      var front, op := ops[..|ops| - 1], ops[|ops| - 1];
      var data, since := Run(max, front), SinceTouch(max, front, key);
      if Touches(data, op) then
        if op.key == key then Some({})
        else if since.None? then None else Some(since.value + {op.key})
      else if op.key == key && Removes(data, op) then None
      else since
  }

  /** The keys behind `key`, that is, more recently used. */
  function Behind<V>(data: Data<V>, key: string): Data<V> {
    var p := Find(data, key);
    if p == |data| then [] else data[p + 1..]
  }

  ghost predicate KeysIn<V>(data: Data<V>, keys: set<string>) {
    forall e <- data :: e.key in keys
  }

  lemma {:induction false} DistinctCount<V>(data: Data<V>, keys: set<string>)
    requires Distinct(data) && KeysIn(data, keys)
    ensures |data| <= |keys|
  {
    if data == [] {
    } else {
      var first := data[0];
      assert forall i | 1 <= i < |data| :: data[i] in data && data[i].key != first.key;
      DistinctCount(data[1..], keys - {first.key});
    }
  }

  lemma BehindWithout<V>(data: Data<V>, key: string, q: nat)
    requires Distinct(data) && Resident(data, key) && q <= |data| && q != Find(data, key)
    ensures var r := Without(data, q);
            Resident(r, key) && forall e <- Behind(r, key) :: e in Behind(data, key)
  {
    hide Distinct;
    var p := Find(data, key);
    if q < |data| {
      FindUnique(data, data[q].key, q);
      WithoutFacts(data, data[q].key);
      BehindCut(data, key, p, q);
    }
  }

  lemma BehindCut<V>(data: Data<V>, key: string, p: nat, q: nat)
    requires p < |data| && q < |data| && p != q && data[p].key == key && Find(data, key) == p
    requires Distinct(Without(data, q))
    ensures var r := Without(data, q);
            Resident(r, key) && forall e <- Behind(r, key) :: e in Behind(data, key)
  {
    hide Distinct, Find;
    var r := Without(data, q);
    var p' := if q < p then p - 1 else p;
    assert r[p'] == data[p];
    FindUnique(r, key, p');
    var behind := data[p + 1..];
    if q < p {
      assert r[p' + 1..] == behind;
    } else {
      assert r[p' + 1..] == behind[..q - p - 1] + behind[q - p..];
    }
  }

  lemma BehindAppend<V>(data: Data<V>, key: string, e: Entry<V>)
    requires Distinct(data + [e]) && Resident(data, key)
    ensures Resident(data + [e], key) && Behind(data + [e], key) == Behind(data, key) + [e]
  {
    hide Distinct, Find;
    var p := Find(data, key);
    FoundAt(data, key);
    assert (data + [e])[p] == data[p];
    FindUnique(data + [e], key, p);
    assert (data + [e])[p + 1..] == data[p + 1..] + [e];
  }

  lemma FoundAt<V>(data: Data<V>, key: string)
    requires Resident(data, key)
    ensures Find(data, key) < |data| && data[Find(data, key)].key == key
  {
  }

  lemma BehindEvict<V>(data: Data<V>, key: string)
    requires Distinct(data) && Resident(data, key)
    ensures if Resident(data[1..], key) then Behind(data[1..], key) == Behind(data, key)
            else Behind(data, key) == data[1..]
  {
    var p := Find(data, key);
    if p > 0 {
      assert data[1..][p - 1] == data[p];
      assert forall i, j | 0 <= i < j < |data| - 1 :: data[1..][i].key != data[1..][j].key;
      FindUnique(data[1..], key, p - 1);
    }
  }

  /** The keys that an operation may put behind another key. */
  function TouchedBy<V>(data: Data<V>, op: Op<V>): set<string> {
    if Touches(data, op) then {op.key} else {}
  }

  lemma GetBehind<V>(data: Data<V>, key: string, k: string, ttl: int, now: Time, keys: set<string>)
    requires Distinct(data) && Resident(data, key) && KeysIn(Behind(data, key), keys)
    requires k != key || ttl <= 0
    ensures var out := GetFresh(data, k, ttl, now);
            Resident(out.data, key) && KeysIn(Behind(out.data, key), keys + if out.hit.Some? then {k} else {})
  {
    var q := Find(data, k);
    if ttl > 0 && q < |data| {
      assert data[q].key == k;
      BehindWithout(data, key, q);
      if Fresh(data[q].stamp, ttl, now) {
        WithoutFacts(data, k);
        AppendDistinct(Without(data, q), data[q]);
        BehindAppend(Without(data, q), key, data[q]);
      }
    }
  }

  lemma PutBehind<V>(max: nat, data: Data<V>, key: string, e: Entry<V>, keys: set<string>)
    requires Distinct(data) && |data| <= max && Resident(data, key) && KeysIn(Behind(data, key), keys)
    requires e.key != key
    ensures var data' := Put(data, max, e.key, e.value, e.stamp);
            if Resident(data', key) then KeysIn(Behind(data', key), keys + {e.key}) else |keys + {e.key}| >= max
  {
    hide Distinct, Behind, Evicted, KeysIn, Find, Resident;
    var q := Find(data, e.key);
    var rest := Without(data, q);
    var all := rest + [e];
    OtherPlace(data, key, e.key);
    WithoutFacts(data, e.key);
    BehindWithout(data, key, q);
    AppendDistinct(rest, e);
    BehindAppend(rest, key, e);
    KeysInMore(Behind(data, key), Behind(rest, key), e, keys);
    EvictedIsSuffix(all, max);
    if |all| > max {
      BehindEvict(all, key);
      if !Resident(all[1..], key) {
        TailDistinct(all);
        DistinctCount(all[1..], keys + {e.key});
      }
    }
  }

  lemma OtherPlace<V>(data: Data<V>, key: string, k: string)
    requires Resident(data, key) && k != key
    ensures Find(data, k) <= |data| && Find(data, k) != Find(data, key)
  {
  }

  lemma TailDistinct<V>(data: Data<V>)
    requires Distinct(data) && data != []
    ensures Distinct(data[1..])
  {
  }

  lemma KeysInMore<V>(data: Data<V>, data': Data<V>, e: Entry<V>, keys: set<string>)
    requires KeysIn(data, keys) && forall x <- data' :: x in data
    ensures KeysIn(data' + [e], keys + {e.key})
  {
  }

  lemma InvalidateBehind<V>(data: Data<V>, key: string, k: string, keys: set<string>)
    requires Distinct(data) && Resident(data, key) && KeysIn(Behind(data, key), keys) && k != key
    ensures Resident(Invalidate(data, k), key) && KeysIn(Behind(Invalidate(data, k), key), keys)
  {
    var q := Find(data, k);
    assert q < |data| ==> data[q].key == k;
    BehindWithout(data, key, q);
  }

  lemma LastIsOwn<V>(max: nat, data: Data<V>, op: Op<V>)
    requires Touches(data, op) && max > 0
    ensures var data' := Step(max, data, op); data' != [] && data'[|data'| - 1].key == op.key
  {
    hide Without;
    var p := Find(data, op.key);
    if op.DoPut? {
      EvictedIsSuffix(Without(data, p) + [Entry(op.key, op.value, op.now)], max);
    }
  }

  /** A touched key ends up most recently used. */
  lemma TouchedIsLast<V>(max: nat, data: Data<V>, op: Op<V>)
    requires Distinct(data) && |data| <= max && Touches(data, op) && max > 0
    ensures Resident(Step(max, data, op), op.key) && Behind(Step(max, data, op), op.key) == []
  {
    StepFacts(max, data, op);
    var data' := Step(max, data, op);
    LastIsOwn(max, data, op);
    hide Touches, Step, Distinct;
    FindUnique(data', op.key, |data'| - 1);
  }

  lemma TouchedIsCovered<V>(max: nat, data: Data<V>, op: Op<V>)
    requires Distinct(data) && |data| <= max && Touches(data, op)
    ensures Covered(max, Step(max, data, op), op.key, {})
    ensures max > 0 ==> Resident(Step(max, data, op), op.key)
  {
    hide Touches, Find;
    StepFacts(max, data, op);
    if max > 0 {
      TouchedIsLast(max, data, op);
    }
  }

  /** The key is resident with only keys of `keys` behind it, or `keys` is at least as large as the cache. */
  ghost predicate Covered<V>(max: nat, data: Data<V>, key: string, keys: set<string>) {
    if Resident(data, key) then KeysIn(Behind(data, key), keys) else |keys| >= max
  }

  lemma StepCovered<V>(max: nat, data: Data<V>, op: Op<V>, key: string, keys: set<string>)
    requires Distinct(data) && |data| <= max && Covered(max, data, key, keys)
    requires op.key != key || (!Touches(data, op) && !Removes(data, op))
    ensures Covered(max, Step(max, data, op), key, keys + TouchedBy(data, op))
  {
    hide Find, Without, Evicted, Behind;
    assert keys + {} == keys;
    if Resident(data, key) {
      match op {
        case DoPut(k, v, now) => PutBehind(max, data, key, Entry(k, v, now), keys);
        case DoGet(k, ttl, now) => GetBehind(data, key, k, ttl, now, keys);
        case DoInvalidate(k) => InvalidateBehind(data, key, k, keys);
      }
    } else {
      MissingStays(max, data, op, key);
      MoreKeys(keys, TouchedBy(data, op));
    }
  }

  lemma MoreKeys(keys: set<string>, more: set<string>)
    ensures |keys + more| >= |keys|
  {
    assert keys + more == keys + (more - keys);
  }

  lemma MissingStays<V>(max: nat, data: Data<V>, op: Op<V>, key: string)
    requires Distinct(data) && |data| <= max && !Resident(data, key)
    requires op.key != key || !op.DoPut?
    ensures !Resident(Step(max, data, op), key)
  {
    StepFacts(max, data, op);
    ResidentKeys(data, key);
    ResidentKeys(Step(max, data, op), key);
  }

  /**
   Residency over every run: a key that was touched and not removed since is resident as long as
   fewer than `max` other keys have been put or hit since its last touch.
   */
  lemma {:induction false} RecentKeysStay<V>(max: nat, ops: seq<Op<V>>, key: string)
    ensures var since := SinceTouch(max, ops, key);
            since.Some? ==> Covered(max, Run(max, ops), key, since.value)
    ensures var since := SinceTouch(max, ops, key);
            since.Some? && |since.value| < max ==> Resident(Run(max, ops), key)
  {
    hide Step, Touches, Removes, Find;
    if ops == [] {
    } else {
      var front, op := ops[..|ops| - 1], ops[|ops| - 1];
      RecentKeysStay(max, front, key);
      RunBounded(max, front);
      var data, since := Run(max, front), SinceTouch(max, front, key);
      if Touches(data, op) && op.key == key {
        TouchedIsCovered(max, data, op);
      } else if since.Some? && !(op.key == key && Removes(data, op)) {
        StepCovered(max, data, op, key, since.value);
        assert since.value + {} == since.value;
      }
    }
  }

  /** And only touched keys are resident. */
  lemma {:induction false} ResidentWasTouched<V>(max: nat, ops: seq<Op<V>>, key: string)
    requires Resident(Run(max, ops), key)
    ensures SinceTouch(max, ops, key).Some?
  {
    var front, op := ops[..|ops| - 1], ops[|ops| - 1];
    var data := Run(max, front);
    RunBounded(max, front);
    if !(Touches(data, op) && op.key == key) {
      if !Resident(data, key) {
        MissingStays(max, data, op, key);
      } else {
        ResidentWasTouched(max, front, key);
        RemovedIsGone(max, data, op);
      }
    }
  }

  lemma RemovedIsGone<V>(max: nat, data: Data<V>, op: Op<V>)
    requires Distinct(data) && |data| <= max
    ensures Removes(data, op) ==> !Resident(Step(max, data, op), op.key)
  {
    WithoutFacts(data, op.key);
    ResidentKeys(Without(data, Find(data, op.key)), op.key);
  }

  // ---------- a put and the next get ----------

  lemma PutIsHit<V>(max: nat, data: Data<V>, key: string, value: V, put: Time, ttl: int, later: Time)
    requires Distinct(data) && |data| <= max && max > 0 && ttl > 0
    ensures GetFresh(Put(data, max, key, value, put), key, ttl, later).hit ==
            if later - put <= ttl as real then Some(value) else None
  {
    hide Put, Distinct, Behind;
    var op := DoPut(key, value, put);
    StepFacts(max, data, op);
    TouchedIsLast(max, data, op);
    var after := Put(data, max, key, value, put);
    assert after[Find(after, key)] in after;
  }
}
