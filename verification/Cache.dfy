/** The key-value cache with a time to live, periodic cleanup and least-recently-used eviction.

    Instants and durations are counted in nanoseconds; the clock readings of a call are its
    parameters, `now` for the call itself and `workNow` for the cleanup it may run.  The order in
    which the hash map is scanned is left open. */
module Cache {
  import opened Wrappers

  type Time = nat

  datatype Entry<+V> = Entry(value: V, insertedAt: Time, usedAt: Time)

  datatype State<K, V> = State(
    storage: map<K, Entry<V>>,
    ttl: Time,
    workInterval: Time,
    lastWork: Time,
    maxEntries: nat)

  /** `now.durationSince(then)`: zero if `then` is in the future. */
  function Since(now: Time, then_: Time): Time {
    if now < then_ then 0 else now - then_
  }

  predicate Expired<V>(e: Entry<V>, ttl: Time, now: Time) {
    ttl != 0 && Since(now, e.insertedAt) > ttl
  }

  /** The cleanup is due when the last one is more than the interval ago. */
  predicate WorkDue<K, V>(c: State<K, V>, now: Time) {
    Since(now, c.lastWork) > c.workInterval
  }

  ghost predicate IsVictim<K, V>(storage: map<K, Entry<V>>, k: K) {
    k in storage && forall x :: x in storage ==> storage[k].usedAt <= storage[x].usedAt
  }

  predicate Full<K, V>(c: State<K, V>) {
    c.maxEntries > 0 && |c.storage| >= c.maxEntries
  }

  ghost function Swept<K, V>(c: State<K, V>, workNow: Time): State<K, V> {
    c.(lastWork := workNow,
       storage := map k | k in c.storage && !Expired(c.storage[k], c.ttl, workNow) :: c.storage[k])
  }

  ghost function Worked<K, V>(c: State<K, V>, now: Time, workNow: Time): State<K, V> {
    if WorkDue(c, now) then Swept(c, workNow) else c
  }

  ghost function Evicted<K, V>(c: State<K, V>, victim: Option<K>): map<K, Entry<V>> {
    if victim.Some? then c.storage - {victim.value} else c.storage
  }

  /** `insert`, given the key that eviction chose. */
  ghost function Inserted<K, V>(c: State<K, V>, victim: Option<K>, key: K, value: V, now: Time, workNow: Time)
    : State<K, V>
  {
    Worked(c.(storage := Evicted(c, victim)[key := Entry(value, now, now)]), now, workNow)
  }

  ghost predicate MayEvict<K, V>(c: State<K, V>, victim: Option<K>) {
    if Full(c) then victim.Some? && IsVictim(c.storage, victim.value) else victim.None?
  }

  /** What looking a key up does to the entries: an expired one goes, a usable one is marked as used. */
  ghost function Looked<K, V>(storage: map<K, Entry<V>>, key: K, ttl: Time, now: Time): map<K, Entry<V>> {
    if key !in storage then storage
    else if Expired(storage[key], ttl, now) then storage - {key}
    else storage[key := storage[key].(usedAt := now)]
  }

  ghost function Got<K, V>(c: State<K, V>, key: K, now: Time, workNow: Time): (State<K, V>, Option<V>) {
    var w := Worked(c, now, workNow);
    (w.(storage := Looked(w.storage, key, w.ttl, now)),
     if key in w.storage && !Expired(w.storage[key], w.ttl, now) then Some(w.storage[key].value) else None)
  }

  class Cache<K(==), V(==)> {
    var storage: map<K, Entry<V>>
    var ttl: Time
    var workInterval: Time
    var lastWork: Time
    var maxEntries: nat

    ghost function Abs(): State<K, V>
      reads this
    {
      State(storage, ttl, workInterval, lastWork, maxEntries)
    }

    constructor ()
      ensures Abs() == State(map[], 0, 60_000_000_000, 0, 0)
    {
      storage := map[];
      ttl, workInterval, lastWork, maxEntries := 0, 60_000_000_000, 0, 0;
    }

    method SetMaxEntries(m: nat)
      modifies this`maxEntries
      ensures maxEntries == m
    {
      maxEntries := m;
    }

    method SetTimeToLive(dur: Time)
      modifies this`ttl
      ensures ttl == dur
    {
      ttl := dur;
    }

    method SetWorkInterval(dur: Time)
      modifies this`workInterval
      ensures workInterval == dur
    {
      workInterval := dur;
    }

    /** Removes an entry whose last use is oldest. */
    method EvictOne() returns (ghost victim: Option<K>)
      modifies this`storage
      ensures old(storage) == map[] ==> victim == None && storage == old(storage)
      ensures old(storage) != map[] ==> victim.Some? && IsVictim(old(storage), victim.value)
                                        && storage == old(storage) - {victim.value}
    {
      victim := None;
      if |storage| == 0 {
        return;
      }
      assert storage.Keys != {};
      var oldest :| oldest in storage.Keys;
      var rest := storage.Keys;
      while rest != {}
        invariant rest <= storage.Keys && oldest in storage
        invariant forall k :: k in storage.Keys - rest ==> storage[oldest].usedAt <= storage[k].usedAt
        decreases rest
      {
        var it :| it in rest;
        if storage[it].usedAt < storage[oldest].usedAt {
          oldest := it;
        }
        rest := rest - {it};
      }
      assert storage.Keys - rest == storage.Keys;
      victim := Some(oldest);
      storage := storage - {oldest};
    }

    /** Removes every expired entry. */
    method DoWork(workNow: Time)
      modifies this`lastWork, this`storage
      ensures Abs() == Swept(old(Abs()), workNow)
    {
      lastWork := workNow;
      if ttl == 0 {
        assert storage == Swept(old(Abs()), workNow).storage;
        return;
      }
      var rest := storage.Keys;
      while rest != {}
        invariant rest <= storage.Keys <= old(storage).Keys
        invariant forall k :: k in storage ==> storage[k] == old(storage)[k]
        invariant forall k :: k in old(storage) && k !in rest ==>
                    (k in storage <==> !Expired(old(storage)[k], ttl, workNow))
        invariant lastWork == workNow
        decreases rest
      {
        var it :| it in rest;
        rest := rest - {it};
        if Since(lastWork, storage[it].insertedAt) > ttl {
          storage := storage - {it};
        }
      }
      assert storage == Swept(old(Abs()), workNow).storage;
    }

    method Insert(key: K, value: V, now: Time, workNow: Time) returns (ghost victim: Option<K>)
      modifies this`storage, this`lastWork
      ensures MayEvict(old(Abs()), victim)
      ensures Abs() == Inserted(old(Abs()), victim, key, value, now, workNow)
    {
      victim := None;
      if maxEntries > 0 && |storage| >= maxEntries {
        victim := EvictOne();
      }
      storage := storage[key := Entry(value, now, now)];
      if Since(now, lastWork) > workInterval {
        DoWork(workNow);
      }
    }

    method Get(key: K, now: Time, workNow: Time) returns (result: Option<V>)
      modifies this`storage, this`lastWork
      ensures (Abs(), result) == Got(old(Abs()), key, now, workNow)
    {
      if Since(now, lastWork) > workInterval {
        DoWork(workNow);
      }
      if key !in storage {
        return None;
      }
      if ttl != 0 && Since(now, storage[key].insertedAt) > ttl {
        storage := storage - {key};
        return None;
      }
      storage := storage[key := storage[key].(usedAt := now)];
      return Some(storage[key].value);
    }
  }
}
