/** What one call of the cache does, entry by entry, in plain arithmetic on ages. */
module CacheOps {
  import opened Wrappers
  import opened Cache
  import opened CacheRuns

  /** The cleanup interval is over. */
  ghost predicate Due<K, V>(c: State<K, V>, now: Time) {
    now > c.lastWork + c.workInterval
  }

  /** At time `at` the entry is older than the time to live, if there is one. */
  ghost predicate TooOld<V>(e: Entry<V>, ttl: Time, at: Time) {
    ttl > 0 && at as int - e.insertedAt > ttl
  }

  /** `victim` is an entry with the oldest use if the cache is at its limit, and nothing otherwise. */
  ghost predicate Chosen<K(!new), V>(c: State<K, V>, victim: Option<K>) {
    if c.maxEntries > 0 && |c.storage| >= c.maxEntries
    then && victim.Some? && victim.value in c.storage
         && forall k :: k in c.storage ==> c.storage[victim.value].usedAt <= c.storage[k].usedAt
    else victim.None?
  }

  ghost predicate SameSettings<K, V>(c: State<K, V>, after: State<K, V>) {
    after.ttl == c.ttl && after.workInterval == c.workInterval && after.maxEntries == c.maxEntries
  }

  /** An insertion, entry by entry: the victim goes, the key gets a new entry, and if the cleanup is due
      everything goes that is too old then; nothing else changes. */
  ghost predicate InsertsInto<K(!new), V>(c: State<K, V>, victim: Option<K>, key: K, value: V, now: Time, workNow: Time,
                                          after: State<K, V>) {
    && Chosen(c, victim) && SameSettings(c, after)
    && after.lastWork == (if Due(c, now) then workNow else c.lastWork)
    && (forall k :: k != key ==>
          (k in after.storage <==>
             k in c.storage && victim != Some(k) && !(Due(c, now) && TooOld(c.storage[k], c.ttl, workNow))) &&
          (k in after.storage ==> after.storage[k] == c.storage[k]))
    && (key in after.storage <==> !(Due(c, now) && c.ttl > 0 && workNow as int - now > c.ttl))
    && (key in after.storage ==> after.storage[key] == Entry(value, now, now))
  }

  lemma DueIs<K, V>(c: State<K, V>, now: Time)
    ensures WorkDue(c, now) <==> Due(c, now)
  {
  }

  lemma TooOldIs<V>(e: Entry<V>, ttl: Time, at: Time)
    ensures Expired(e, ttl, at) <==> TooOld(e, ttl, at)
  {
  }

  lemma ChosenIs<K(!new), V>(c: State<K, V>, victim: Option<K>)
    ensures MayEvict(c, victim) <==> Chosen(c, victim)
  {
  }

  lemma InsertedIs<K(!new), V>(c: State<K, V>, victim: Option<K>, key: K, value: V, now: Time, workNow: Time)
    requires MayEvict(c, victim)
    ensures InsertsInto(c, victim, key, value, now, workNow, Inserted(c, victim, key, value, now, workNow))
  {
    ChosenIs(c, victim);
    DueIs(c, now);
    forall k | k in c.storage
      ensures Expired(c.storage[k], c.ttl, workNow) <==> TooOld(c.storage[k], c.ttl, workNow)
    {
      TooOldIs(c.storage[k], c.ttl, workNow);
    }
    TooOldIs(Entry(value, now, now), c.ttl, workNow);
    hide Chosen;
    hide MayEvict;
    hide Due;
    hide WorkDue;
    hide Expired;
  }

  lemma InsertsIntoOne<K(!new), V>(c: State<K, V>, victim: Option<K>, key: K, value: V, now: Time, workNow: Time,
                                   a: State<K, V>, b: State<K, V>)
    requires InsertsInto(c, victim, key, value, now, workNow, a) && InsertsInto(c, victim, key, value, now, workNow, b)
    ensures a == b
  {
    forall k
      ensures k in a.storage <==> k in b.storage
      ensures k in a.storage ==> a.storage[k] == b.storage[k]
    {
    }
    assert a.storage == b.storage;
  }

  /** `insert` does this for some victim, and nothing else. */
  lemma InsertIsExact<K(!new), V>(c: State<K, V>, key: K, value: V, now: Time, workNow: Time, after: State<K, V>)
    ensures Serves(c, Insert(key, value, now, workNow), after, None) <==>
              exists victim :: InsertsInto(c, victim, key, value, now, workNow, after)
  {
    if Serves(c, Insert(key, value, now, workNow), after, None) {
      var victim :| MayEvict(c, victim) && after == Inserted(c, victim, key, value, now, workNow);
      InsertedIs(c, victim, key, value, now, workNow);
    }
    if exists victim :: InsertsInto(c, victim, key, value, now, workNow, after) {
      var victim :| InsertsInto(c, victim, key, value, now, workNow, after);
      ChosenIs(c, victim);
      InsertedIs(c, victim, key, value, now, workNow);
      InsertsIntoOne(c, victim, key, value, now, workNow, after, Inserted(c, victim, key, value, now, workNow));
    }
  }

  /** The entry of a key is there, and a cleanup that is due now leaves it. */
  ghost predicate Left<K, V>(c: State<K, V>, k: K, now: Time, workNow: Time) {
    k in c.storage && !(Due(c, now) && TooOld(c.storage[k], c.ttl, workNow))
  }

  /** A lookup, entry by entry: if the cleanup is due everything goes that is too old then; the key is
      found if its entry is left and not too old itself, is marked as used then, and removed otherwise. */
  ghost predicate LooksUp<K(!new), V>(c: State<K, V>, key: K, now: Time, workNow: Time,
                                      after: State<K, V>, result: Option<V>) {
    && SameSettings(c, after) && after.lastWork == (if Due(c, now) then workNow else c.lastWork)
    && (forall k :: k != key ==>
          (k in after.storage <==> Left(c, k, now, workNow)) &&
          (k in after.storage ==> after.storage[k] == c.storage[k]))
    && (if Left(c, key, now, workNow) && !TooOld(c.storage[key], c.ttl, now)
        then && result == Some(c.storage[key].value) && key in after.storage
             && after.storage[key] == Entry(c.storage[key].value, c.storage[key].insertedAt, now)
        else result == None && key !in after.storage)
  }

  lemma GotIs<K(!new), V>(c: State<K, V>, key: K, now: Time, workNow: Time)
    ensures LooksUp(c, key, now, workNow, Got(c, key, now, workNow).0, Got(c, key, now, workNow).1)
  {
    DueIs(c, now);
    forall k | k in c.storage
      ensures Expired(c.storage[k], c.ttl, workNow) <==> TooOld(c.storage[k], c.ttl, workNow)
      ensures Expired(c.storage[k], c.ttl, now) <==> TooOld(c.storage[k], c.ttl, now)
    {
      TooOldIs(c.storage[k], c.ttl, workNow);
      TooOldIs(c.storage[k], c.ttl, now);
    }
    hide Due;
    hide WorkDue;
    hide Expired;
    hide TooOld;
  }

  lemma LooksUpOne<K(!new), V>(c: State<K, V>, key: K, now: Time, workNow: Time,
                               a: State<K, V>, r: Option<V>, b: State<K, V>, q: Option<V>)
    requires LooksUp(c, key, now, workNow, a, r) && LooksUp(c, key, now, workNow, b, q)
    ensures a == b && r == q
  {
    hide Left;
    hide TooOld;
    hide Due;
    forall k
      ensures k in a.storage <==> k in b.storage
      ensures k in a.storage ==> a.storage[k] == b.storage[k]
    {
    }
    assert a.storage == b.storage;
  }

  /** `get` does this and nothing else, with or without an entry limit. */
  lemma GetIsLookup<K(!new), V>(c: State<K, V>, key: K, now: Time, workNow: Time, after: State<K, V>, result: Option<V>)
    ensures Serves(c, Get(key, now, workNow), after, result) <==> LooksUp(c, key, now, workNow, after, result)
  {
    GotIs(c, key, now, workNow);
    if LooksUp(c, key, now, workNow, after, result) {
      LooksUpOne(c, key, now, workNow, after, result, Got(c, key, now, workNow).0, Got(c, key, now, workNow).1);
    }
  }

  /** After a call that cleans up, nothing is left that is too old by the reading of the cleanup. */
  lemma CleanupLeavesNothingOld<K(!new), V>(c: State<K, V>, call: Call<K, V>, after: State<K, V>, result: Option<V>,
                                            k: K)
    requires Serves(c, call, after, result) && c.ttl > 0 && call.now > c.lastWork + c.workInterval && k in after.storage
    ensures call.workNow as int - after.storage[k].insertedAt <= c.ttl && after.lastWork == call.workNow
  {
    if call.Insert? {
      InsertIsExact(c, call.key, call.value, call.now, call.workNow, after);
    } else {
      GetIsLookup(c, call.key, call.now, call.workNow, after, result);
    }
  }

  /** Some answer is always given. */
  lemma AlwaysServed<K(!new), V>(c: State<K, V>, call: Call<K, V>) returns (after: State<K, V>, result: Option<V>)
    ensures Serves(c, call, after, result)
  {
    match call
    case Get(key, now, workNow) =>
      after, result := Got(c, key, now, workNow).0, Got(c, key, now, workNow).1;
    case Insert(key, value, now, workNow) =>
      var victim := None;
      if Full(c) {
        assert c.storage.Keys != {};
        var k := OldestUse(c.storage, c.storage.Keys);
        victim := Some(k);
      }
      after, result := Inserted(c, victim, key, value, now, workNow), None;
  }

  lemma {:induction false} OldestUse<K, V>(storage: map<K, Entry<V>>, keys: set<K>) returns (k: K)
    requires keys <= storage.Keys && keys != {}
    ensures k in keys && forall x :: x in keys ==> storage[k].usedAt <= storage[x].usedAt
    decreases |keys|
  {
    k :| k in keys;
    if keys - {k} != {} {
      var l := OldestUse(storage, keys - {k});
      if storage[l].usedAt < storage[k].usedAt {
        k := l;
      }
      assert keys == (keys - {k}) + {k};
    } else {
      assert keys == {k};
    }
  }
}
