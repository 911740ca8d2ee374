/** The bounded TTL and LRU cache behind token versions and session verdicts. */
module TtlCache {
  import opened Clock
  import opened Options

  datatype Entry<+V> = Entry(key: string, value: V, stamp: Time)

  /** The entries of an ordered dictionary, least recently used first. */
  type Data<V> = seq<Entry<V>>

  function Find<V>(data: Data<V>, key: string): (p: nat)
    ensures p <= |data|
    ensures forall k | 0 <= k < p :: data[k].key != key
    ensures p < |data| ==> data[p].key == key
  {
    if data == [] || data[0].key == key then 0 else 1 + Find(data[1..], key)
  }

  function Without<V>(data: Data<V>, p: nat): Data<V>
    requires p <= |data|
  {
    if p == |data| then data else data[..p] + data[p + 1..]
  }

  predicate Fresh(stamp: Time, ttl: int, now: Time) {
    !(now - stamp > ttl as real)
  }

  datatype Outcome<V> = Outcome(data: Data<V>, hit: Option<V>)

  function GetFresh<V>(data: Data<V>, key: string, ttl: int, now: Time): Outcome<V> {
    var p := Find(data, key);
    if ttl <= 0 || p == |data| then Outcome(data, None)
    else if !Fresh(data[p].stamp, ttl, now) then Outcome(Without(data, p), None)
    else Outcome(Without(data, p) + [data[p]], Some(data[p].value))
  }

  /** Drop the least recently used entries until at most `max` are left. */
  function Evicted<V>(data: Data<V>, max: nat): Data<V> {
    if |data| > max then Evicted(data[1..], max) else data
  }

  function Put<V>(data: Data<V>, max: nat, key: string, value: V, now: Time): Data<V> {
    Evicted(Without(data, Find(data, key)) + [Entry(key, value, now)], max)
  }

  function Invalidate<V>(data: Data<V>, key: string): Data<V> {
    Without(data, Find(data, key))
  }

  // ---------- runs ----------

  datatype Op<V> =
    | DoPut(key: string, value: V, now: Time)
    | DoGet(key: string, ttl: int, now: Time)
    | DoInvalidate(key: string)

  function Step<V>(max: nat, data: Data<V>, op: Op<V>): Data<V> {
    match op
    case DoPut(key, value, now) => Put(data, max, key, value, now)
    case DoGet(key, ttl, now) => GetFresh(data, key, ttl, now).data
    case DoInvalidate(key) => Invalidate(data, key)
  }

  /** The cache after a sequence of operations on an empty one. */
  function Run<V>(max: nat, ops: seq<Op<V>>): Data<V> {
    if ops == [] then [] else Step(max, Run(max, ops[..|ops| - 1]), ops[|ops| - 1])
  }

  class TtlLru<V> {
    const max: nat
    var data: Data<V>
    ghost var ops: seq<Op<V>>

    ghost predicate Valid()
      reads this
    {
      data == Run(max, ops)
    }

    constructor (max: nat)
      ensures Valid() && this.max == max && ops == []
    {
      this.max := max;
      data, ops := [], [];
    }

    method Get(key: string, ttl: int, now: Time) returns (hit: Option<V>)
      requires Valid()
      modifies this
      ensures Valid() && ops == old(ops) + [DoGet(key, ttl, now)]
      ensures Outcome(data, hit) == GetFresh(old(data), key, ttl, now)
    {
      ops := ops + [DoGet(key, ttl, now)];
      assert ops[..|ops| - 1] == old(ops);
      if ttl <= 0 {
        return None;
      }
      var p := Find(data, key);
      if p == |data| {
        return None;
      }
      var entry := data[p];
      if now - entry.stamp > ttl as real {
        data := Without(data, p);
        return None;
      }
      data := Without(data, p) + [entry];
      return Some(entry.value);
    }

    method PutNow(key: string, value: V, now: Time)
      requires Valid()
      modifies this
      ensures Valid() && ops == old(ops) + [DoPut(key, value, now)]
      ensures data == Put(old(data), max, key, value, now)
    {
      ops := ops + [DoPut(key, value, now)];
      assert ops[..|ops| - 1] == old(ops);
      data := Without(data, Find(data, key)) + [Entry(key, value, now)];
      while |data| > max
        invariant Evicted(data, max) == Put(old(data), max, key, value, now)
        invariant ops == old(ops) + [DoPut(key, value, now)]
      {
        data := data[1..];
      }
    }

    method Drop(key: string)
      requires Valid()
      modifies this
      ensures Valid() && ops == old(ops) + [DoInvalidate(key)]
      ensures data == Invalidate(old(data), key)
    {
      ops := ops + [DoInvalidate(key)];
      assert ops[..|ops| - 1] == old(ops);
      data := Without(data, Find(data, key));
    }
  }
}
