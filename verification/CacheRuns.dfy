/** What the cache guarantees over whole runs of `insert` and `get`, its settings fixed. */
module CacheRuns {
  import opened Wrappers
  import opened Cache
  import Instants = Time

  /** Ages in nanoseconds are what the cache compares, exactly on instants between which `durationSince`
      is exact: there its test on durations is the test on nanoseconds. */
  lemma AgeIsElapsed(now: Instants.Instant, then_: Instants.Instant, limit: Instants.Duration)
    requires Instants.NormalAt(now) && Instants.NormalAt(then_) && Instants.Normal(limit)
    ensures var age, elapsed := Since(Instants.NanosAt(now), Instants.NanosAt(then_)), Instants.Elapsed(now, then_);
            && (elapsed.Some? && Instants.Nanos(elapsed.value) == age <==> Instants.Measurable(now, then_))
            && (Instants.Measurable(now, then_) ==>
                  (Instants.Compare(elapsed.value, limit) > 0 <==> age > Instants.Nanos(limit)))
  {
    Instants.ElapsedExact(now, then_);
  }

  datatype Call<K, V> =
    | Insert(key: K, value: V, now: Time, workNow: Time)
    | Get(key: K, now: Time, workNow: Time)

  /** A call takes `c` to `after` with the given result; `insert` has none. */
  ghost predicate Serves<K(!new), V>(c: State<K, V>, call: Call<K, V>, after: State<K, V>, result: Option<V>) {
    match call
    case Insert(key, value, now, workNow) =>
      result == None && exists victim :: MayEvict(c, victim) && after == Inserted(c, victim, key, value, now, workNow)
    case Get(key, now, workNow) =>
      (after, result) == Got(c, key, now, workNow)
  }

  ghost function Empty<K, V>(ttl: Time, workInterval: Time, maxEntries: nat): State<K, V> {
    State(map[], ttl, workInterval, 0, maxEntries)
  }

  ghost predicate IsRun<K(!new), V>(states: seq<State<K, V>>, calls: seq<Call<K, V>>, results: seq<Option<V>>) {
    && |states| == |calls| + 1 && |results| == |calls|
    && states[0] == Empty<K, V>(states[0].ttl, states[0].workInterval, states[0].maxEntries)
    && forall i :: 0 <= i < |calls| ==> Serves(states[i], calls[i], states[i + 1], results[i])
  }

  /** The clock does not go back, within a call or between calls. */
  ghost predicate Monotone<K, V>(calls: seq<Call<K, V>>) {
    && (forall i :: 0 <= i < |calls| ==> calls[i].now <= calls[i].workNow)
    && (forall i :: 0 < i < |calls| ==> calls[i - 1].workNow <= calls[i].now)
  }

  ghost predicate Strict<K, V>(calls: seq<Call<K, V>>) {
    && (forall i :: 0 <= i < |calls| ==> 0 < calls[i].now <= calls[i].workNow)
    && (forall i :: 0 < i < |calls| ==> calls[i - 1].workNow < calls[i].now)
  }

  /** The last clock reading of a history. */
  ghost function Clock<K, V>(calls: seq<Call<K, V>>): Time {
    if calls == [] then 0 else calls[|calls| - 1].workNow
  }

  // ------------------------------------------------------------- the timestamped map it stands for

  /** The most recent insertion of a key. */
  ghost function LastInsert<K, V>(calls: seq<Call<K, V>>, k: K): Option<(V, Time)> {
    if calls == [] then None else
    var call := calls[|calls| - 1];
    if call.Insert? && call.key == k then Some((call.value, call.now)) else LastInsert(calls[..|calls| - 1], k)
  }

  /** The most recent time a key was inserted or found. */
  ghost function LastUse<K, V>(calls: seq<Call<K, V>>, results: seq<Option<V>>, k: K): Option<Time>
    requires |results| == |calls|
  {
    if calls == [] then None else
    var n := |calls| - 1;
    if calls[n].key == k && (calls[n].Insert? || results[n].Some?)
    then Some(calls[n].now)
    else LastUse(calls[..n], results[..n], k)
  }

  /** What a plain timestamped map without any cleanup answers at time `at`. */
  ghost function Fresh<V>(inserted: Option<(V, Time)>, ttl: Time, at: Time): Option<V> {
    if inserted.None? || (ttl != 0 && Since(at, inserted.value.1) > ttl) then None else Some(inserted.value.0)
  }

  /** Every entry records the last insertion and the last use of its key. */
  ghost predicate Records<K(!new), V>(c: State<K, V>, calls: seq<Call<K, V>>, results: seq<Option<V>>)
    requires |results| == |calls|
  {
    forall k :: k in c.storage ==>
      && LastInsert(calls, k) == Some((c.storage[k].value, c.storage[k].insertedAt))
      && LastUse(calls, results, k) == Some(c.storage[k].usedAt)
  }

  /** Without an entry limit, whatever was inserted and has not expired is still there. */
  ghost predicate KeepsFresh<K(!new), V>(c: State<K, V>, calls: seq<Call<K, V>>) {
    forall k :: Fresh(LastInsert(calls, k), c.ttl, Clock(calls)).Some? ==> k in c.storage
  }

  lemma StepKeepsRecords<K(!new), V>(c: State<K, V>, call: Call<K, V>, after: State<K, V>, result: Option<V>,
                                     calls: seq<Call<K, V>>, results: seq<Option<V>>)
    requires |results| == |calls| && Serves(c, call, after, result) && Records(c, calls, results)
    ensures Records(after, calls + [call], results + [result])
  {
    assert (calls + [call])[..|calls|] == calls && (results + [result])[..|results|] == results;
  }

  lemma {:induction false} RunKeepsRecords<K(!new), V>(states: seq<State<K, V>>, calls: seq<Call<K, V>>,
                                                       results: seq<Option<V>>)
    requires IsRun(states, calls, results)
    ensures Records(states[|calls|], calls, results)
  {
    if calls != [] {
      var n := |calls| - 1;
      RunKeepsRecords(states[..n + 1], calls[..n], results[..n]);
      StepKeepsRecords(states[n], calls[n], states[n + 1], results[n], calls[..n], results[..n]);
      assert calls[..n] + [calls[n]] == calls && results[..n] + [results[n]] == results;
    }
  }

  /** Whatever was evicted, a hit returns the value of the latest insertion, and that has not expired. */
  lemma HitIsLatest<K(!new), V>(states: seq<State<K, V>>, calls: seq<Call<K, V>>, results: seq<Option<V>>, i: nat)
    requires IsRun(states, calls, results) && i < |calls| && calls[i].Get? && results[i].Some?
    ensures results[i] == Fresh(LastInsert(calls[..i], calls[i].key), states[i].ttl, calls[i].now)
  {
    RunKeepsRecords(states[..i + 1], calls[..i], results[..i]);
    assert Serves(states[i], calls[i], states[i + 1], results[i]);
  }

  lemma {:induction false} SettingsStay<K(!new), V>(states: seq<State<K, V>>, calls: seq<Call<K, V>>,
                                                    results: seq<Option<V>>)
    requires IsRun(states, calls, results)
    ensures states[|calls|].ttl == states[0].ttl && states[|calls|].maxEntries == states[0].maxEntries
    ensures states[|calls|].workInterval == states[0].workInterval
  {
    if calls != [] {
      var n := |calls| - 1;
      SettingsStay(states[..n + 1], calls[..n], results[..n]);
      assert Serves(states[n], calls[n], states[n + 1], results[n]);
    }
  }

  // ------------------------------------------------------------------- lazy expiry, no entry limit

  lemma StepKeepsFresh<K(!new), V>(c: State<K, V>, call: Call<K, V>, after: State<K, V>, result: Option<V>,
                                   calls: seq<Call<K, V>>, results: seq<Option<V>>)
    requires |results| == |calls| && Serves(c, call, after, result) && Records(c, calls, results)
    requires c.maxEntries == 0 && Clock(calls) <= call.now <= call.workNow
    requires KeepsFresh(c, calls)
    ensures KeepsFresh(after, calls + [call])
  {
    assert (calls + [call])[..|calls|] == calls;
    forall k | Fresh(LastInsert(calls + [call], k), c.ttl, call.workNow).Some?
      ensures k in after.storage
    {
      assert !(call.Insert? && call.key == k) ==> LastInsert(calls + [call], k) == LastInsert(calls, k);
    }
  }

  lemma {:induction false} RunKeepsFresh<K(!new), V>(states: seq<State<K, V>>, calls: seq<Call<K, V>>,
                                                     results: seq<Option<V>>)
    requires IsRun(states, calls, results) && Monotone(calls) && states[0].maxEntries == 0
    ensures KeepsFresh(states[|calls|], calls)
  {
    if calls != [] {
      var n := |calls| - 1;
      RunKeepsFresh(states[..n + 1], calls[..n], results[..n]);
      RunKeepsRecords(states[..n + 1], calls[..n], results[..n]);
      SettingsStay(states[..n + 1], calls[..n], results[..n]);
      assert Serves(states[n], calls[n], states[n + 1], results[n]);
      StepKeepsFresh(states[n], calls[n], states[n + 1], results[n], calls[..n], results[..n]);
      assert calls[..n] + [calls[n]] == calls;
    }
  }

  /** Without an entry limit the cache answers exactly like a timestamped map that never cleans up:
      the cleanup shows only in that a `get` that runs one judges the age at the cleanup's own clock
      reading. */
  lemma GetIsExact<K(!new), V>(states: seq<State<K, V>>, calls: seq<Call<K, V>>, results: seq<Option<V>>, i: nat)
    requires IsRun(states, calls, results) && Monotone(calls) && states[0].maxEntries == 0
    requires i < |calls| && calls[i].Get?
    ensures results[i] == Fresh(LastInsert(calls[..i], calls[i].key), states[0].ttl,
                                if WorkDue(states[i], calls[i].now) then calls[i].workNow else calls[i].now)
  {
    RunKeepsFresh(states[..i + 1], calls[..i], results[..i]);
    RunKeepsRecords(states[..i + 1], calls[..i], results[..i]);
    SettingsStay(states[..i + 1], calls[..i], results[..i]);
    assert Serves(states[i], calls[i], states[i + 1], results[i]);
    assert Clock(calls[..i]) <= calls[i].now;
  }

  /** With one clock reading for each call, neither the work interval nor the cleanup can be observed. */
  lemma LazyExpiryUnobservable<K(!new), V>(states: seq<State<K, V>>, calls: seq<Call<K, V>>,
                                           results: seq<Option<V>>, i: nat)
    requires IsRun(states, calls, results) && Monotone(calls) && states[0].maxEntries == 0
    requires forall j :: 0 <= j < |calls| ==> calls[j].now == calls[j].workNow
    requires i < |calls| && calls[i].Get?
    ensures results[i] == Fresh(LastInsert(calls[..i], calls[i].key), states[0].ttl, calls[i].now)
  {
    GetIsExact(states, calls, results, i);
  }

  // --------------------------------------------------------------------------------- entry limit

  /** Every use is in the past, and no two entries were used at the same time. */
  ghost predicate UsesApart<K(!new), V>(c: State<K, V>, clock: Time) {
    && (forall k :: k in c.storage ==> c.storage[k].usedAt <= clock)
    && (forall k, l :: k in c.storage && l in c.storage && k != l ==> c.storage[k].usedAt != c.storage[l].usedAt)
  }

  ghost predicate WithinLimit<K, V>(c: State<K, V>) {
    c.maxEntries > 0 ==> |c.storage| <= c.maxEntries
  }

  lemma Shrinks<K, E>(a: map<K, E>, b: map<K, E>)
    requires a.Keys <= b.Keys
    ensures |a| <= |b| && |b| == |a| + |b.Keys - a.Keys|
  {
    assert b.Keys == a.Keys + (b.Keys - a.Keys);
    assert |b.Keys| == |a.Keys| + |b.Keys - a.Keys|;
  }

  lemma InsertKeepsLimit<K(!new), V>(c: State<K, V>, victim: Option<K>, key: K, value: V, now: Time, workNow: Time)
    requires MayEvict(c, victim) && WithinLimit(c)
    ensures WithinLimit(Inserted(c, victim, key, value, now, workNow))
  {
    var kept := Evicted(c, victim);
    var stored := kept[key := Entry(value, now, now)];
    assert |stored| <= |kept| + 1 by {
      assert stored.Keys == kept.Keys + {key};
    }
    assert victim.Some? ==> |kept| == |c.storage| - 1 by {
      assert victim.Some? ==> c.storage.Keys - {victim.value} == kept.Keys;
    }
    Shrinks(Inserted(c, victim, key, value, now, workNow).storage, stored);
  }

  lemma StepKeepsLimit<K(!new), V>(c: State<K, V>, call: Call<K, V>, after: State<K, V>, result: Option<V>)
    requires Serves(c, call, after, result) && WithinLimit(c)
    ensures WithinLimit(after) && after.maxEntries == c.maxEntries
  {
    if call.Insert? {
      var victim :| MayEvict(c, victim) && after == Inserted(c, victim, call.key, call.value, call.now, call.workNow);
      InsertKeepsLimit(c, victim, call.key, call.value, call.now, call.workNow);
    } else {
      assert after.storage.Keys <= c.storage.Keys;
      Shrinks(after.storage, c.storage);
    }
  }

  /** Losing entries and giving one of them the latest time of use keep the times apart. */
  lemma UseKeepsApart<K(!new), V>(m: map<K, Entry<V>>, after: map<K, Entry<V>>, key: K, clock: Time, now: Time)
    requires forall k :: k in m ==> m[k].usedAt <= clock < now
    requires forall k, l :: k in m && l in m && k != l ==> m[k].usedAt != m[l].usedAt
    requires forall k :: k in after ==> (k in m && after[k] == m[k]) || (k == key && after[k].usedAt == now)
    ensures forall k, l :: k in after && l in after && k != l ==> after[k].usedAt != after[l].usedAt
  {
  }

  lemma StepKeepsUsesApart<K(!new), V>(c: State<K, V>, call: Call<K, V>, after: State<K, V>,
                                       result: Option<V>, clock: Time)
    requires Serves(c, call, after, result) && UsesApart(c, clock) && clock < call.now <= call.workNow
    ensures UsesApart(after, call.workNow)
  {
    assert forall k :: k in after.storage ==>
      (k in c.storage && after.storage[k] == c.storage[k]) || (k == call.key && after.storage[k].usedAt == call.now);
    hide Serves;
    UseKeepsApart(c.storage, after.storage, call.key, clock, call.now);
  }

  lemma {:induction false} RunKeepsLimit<K(!new), V>(states: seq<State<K, V>>, calls: seq<Call<K, V>>,
                                                     results: seq<Option<V>>)
    requires IsRun(states, calls, results)
    ensures WithinLimit(states[|calls|])
    ensures Strict(calls) ==> UsesApart(states[|calls|], Clock(calls))
  {
    if calls != [] {
      var n := |calls| - 1;
      RunKeepsLimit(states[..n + 1], calls[..n], results[..n]);
      assert Serves(states[n], calls[n], states[n + 1], results[n]);
      StepKeepsLimit(states[n], calls[n], states[n + 1], results[n]);
      if Strict(calls) {
        assert Clock(calls[..n]) < calls[n].now;
        StepKeepsUsesApart(states[n], calls[n], states[n + 1], results[n], Clock(calls[..n]));
      }
    }
  }

  /** With a limit set on the empty cache, its size never exceeds the limit. */
  lemma SizeIsBounded<K(!new), V>(states: seq<State<K, V>>, calls: seq<Call<K, V>>, results: seq<Option<V>>, i: nat)
    requires IsRun(states, calls, results) && i <= |calls| && states[0].maxEntries > 0
    ensures |states[i].storage| <= states[0].maxEntries
  {
    RunKeepsLimit(states[..i + 1], calls[..i], results[..i]);
    SettingsStay(states[..i + 1], calls[..i], results[..i]);
  }

  ghost function UsedAfter<K(!new), V>(calls: seq<Call<K, V>>, results: seq<Option<V>>, keys: set<K>, k: K): set<K>
    requires |results| == |calls|
  {
    set x | x in keys && LastUse(calls, results, x).Some? && LastUse(calls, results, k).Some?
            && LastUse(calls, results, x).value > LastUse(calls, results, k).value
  }

  /** Eviction is least recently used: when `insert` evicts a key, every other key in the cache was
      inserted or found later than that key, and there are `maxEntries - 1` of them. */
  lemma EvictionIsLru<K(!new), V>(states: seq<State<K, V>>, calls: seq<Call<K, V>>,
                                  results: seq<Option<V>>, i: nat, victim: K)
    requires IsRun(states, calls, results) && Strict(calls) && i < |calls|
    requires MayEvict(states[i], Some(victim))
    ensures victim in states[i].storage
    ensures UsedAfter(calls[..i], results[..i], states[i].storage.Keys, victim) == states[i].storage.Keys - {victim}
    ensures |UsedAfter(calls[..i], results[..i], states[i].storage.Keys, victim)| == states[0].maxEntries - 1
  {
    RunKeepsLimit(states[..i + 1], calls[..i], results[..i]);
    SettingsStay(states[..i + 1], calls[..i], results[..i]);
    RunKeepsRecords(states[..i + 1], calls[..i], results[..i]);
    assert |states[i].storage.Keys - {victim}| == states[0].maxEntries - 1;
  }

  /** The cleanup that a call runs, if it runs one, leaves this entry alone. */
  ghost predicate Spared<K, V>(c: State<K, V>, k: K, now: Time, workNow: Time)
    requires k in c.storage
  {
    WorkDue(c, now) ==> !Expired(c.storage[k], c.ttl, workNow)
  }

  /** Overwriting `key` loses no other entry, apart from those that the cleanup removes anyway. */
  ghost predicate LosesNothing<K(!new), V>(c: State<K, V>, after: State<K, V>, key: K, now: Time, workNow: Time) {
    forall k :: k in c.storage && k != key && Spared(c, k, now, workNow) ==> k in after.storage
  }

  /** A quirk of `insert`: it may evict even when it overwrites a key that is already there.  Exactly
      when does it lose nothing: when the cache is not full, when the victim is the key itself, or when
      the victim has expired and the call cleans up.  What survives is unchanged. */
  lemma OverwriteEvicts<K(!new), V>(c: State<K, V>, victim: Option<K>, key: K, value: V, now: Time, workNow: Time)
    requires MayEvict(c, victim) && key in c.storage
    ensures var after := Inserted(c, victim, key, value, now, workNow);
            && (LosesNothing(c, after, key, now, workNow) <==>
                  !Full(c) || victim == Some(key) || !Spared(c, victim.value, now, workNow))
            && (forall k :: k in after.storage && k != key ==> k in c.storage && after.storage[k] == c.storage[k])
    ensures var after := Inserted(c, victim, key, value, now, workNow);
            !WorkDue(c, now) ==>
              && |after.storage| == (if Full(c) && victim != Some(key) then |c.storage| - 1 else |c.storage|)
              && (victim.Some? ==> (victim.value in after.storage <==> victim == Some(key)))
  {
    var after := Inserted(c, victim, key, value, now, workNow);
    if !WorkDue(c, now) {
      assert after.storage.Keys == Evicted(c, victim).Keys + {key};
      assert victim.None? || victim == Some(key) ==> after.storage.Keys == c.storage.Keys;
      assert victim.Some? && victim != Some(key) ==> after.storage.Keys == c.storage.Keys - {victim.value};
    }
  }

  /** The shortest run in which overwriting loses an entry: insert `a`, insert `b`, insert `b` again, with
      room for two. */
  lemma OverwriteLosesEntry<K(!new), V>(a: K, b: K, v: V)
    returns (states: seq<State<K, V>>, calls: seq<Call<K, V>>, results: seq<Option<V>>)
    requires a != b
    ensures calls == [Insert(a, v, 1, 1), Insert(b, v, 2, 2), Insert(b, v, 3, 3)] && Strict(calls)
    ensures IsRun(states, calls, results) && states[0] == Empty<K, V>(0, 10, 2)
    ensures states[2].storage.Keys == {a, b} && states[3].storage.Keys == {b}
    ensures !LosesNothing(states[2], states[3], b, 3, 3)
  {
    calls := [Insert(a, v, 1, 1), Insert(b, v, 2, 2), Insert(b, v, 3, 3)];
    results := [None, None, None];
    var s0 := Empty<K, V>(0, 10, 2);
    var s1 := Inserted(s0, None, a, v, 1, 1);
    assert s1.storage == map[a := Entry(v, 1, 1)];
    var s2 := Inserted(s1, None, b, v, 2, 2);
    assert s2.storage == map[a := Entry(v, 1, 1), b := Entry(v, 2, 2)];
    assert s2.storage.Keys == {a, b} && |s2.storage| == 2;
    assert MayEvict(s2, Some(a));
    var s3 := Inserted(s2, Some(a), b, v, 3, 3);
    assert s3.storage == map[b := Entry(v, 3, 3)];
    states := [s0, s1, s2, s3];
    assert MayEvict(s0, None) && MayEvict(s1, None);
    assert Spared(s2, a, 3, 3);
  }

  /** The victim is the key itself exactly when the key has the oldest use; so, with the times of use
      apart, a caller can tell beforehand whether overwriting loses an entry. */
  lemma OverwriteIsSafe<K(!new), V>(c: State<K, V>, victim: Option<K>, key: K, value: V,
                                    now: Time, workNow: Time, clock: Time)
    requires UsesApart(c, clock) && MayEvict(c, victim) && key in c.storage
    ensures victim == Some(key) <==> Full(c) && IsVictim(c.storage, key)
    ensures LosesNothing(c, Inserted(c, victim, key, value, now, workNow), key, now, workNow) <==>
              || !Full(c)
              || IsVictim(c.storage, key)
              || exists k :: IsVictim(c.storage, k) && !Spared(c, k, now, workNow)
  {
    OverwriteEvicts(c, victim, key, value, now, workNow);
    if Full(c) {
      assert forall k :: IsVictim(c.storage, k) ==> k == victim.value;
    }
  }

  // ------------------------------------------------------------------------------- LRU inclusion

  /** `small` is contained in `large`, which has at most one entry more. */
  ghost predicate Included<K(!new), V>(small: map<K, Entry<V>>, large: map<K, Entry<V>>) {
    && (forall k :: k in small ==> k in large && large[k] == small[k])
    && |large.Keys - small.Keys| <= 1
  }

  ghost predicate Paired<K(!new), V>(small: State<K, V>, large: State<K, V>) {
    && Included(small.storage, large.storage)
    && large.maxEntries == small.maxEntries + 1 && small.maxEntries >= 1
    && |large.storage| <= large.maxEntries
    && large.ttl == small.ttl && large.workInterval == small.workInterval && large.lastWork == small.lastWork
  }

  lemma SubsetCard<T>(a: set<T>, b: set<T>)
    requires a <= b
    ensures |a| <= |b|
  {
    assert b == a + (b - a);
  }

  lemma EvictionKeepsInclusion<K(!new), V>(small: State<K, V>, large: State<K, V>, clock: Time,
                                           v: Option<K>, w: Option<K>)
    requires Paired(small, large) && UsesApart(large, clock) && MayEvict(small, v) && MayEvict(large, w)
    ensures Included(Evicted(small, v), Evicted(large, w))
  {
    Shrinks(small.storage, large.storage);
    var extra := large.storage.Keys - small.storage.Keys;
    if w.Some? {
      // the large cache is full, so the small one is; its victim is the large one's unless that is the extra key
      assert v.Some? && (w.value in small.storage ==> w == v);
      if w == v {
        SubsetCard(Evicted(large, w).Keys - Evicted(small, v).Keys, extra);
      } else {
        assert extra - {w.value} == {} by {
          assert w.value in extra;
          assert |extra - {w.value}| == 0;
        }
        SubsetCard(Evicted(large, w).Keys - Evicted(small, v).Keys, {v.value});
      }
    } else if v.Some? {
      assert extra == {};
      SubsetCard(Evicted(large, w).Keys - Evicted(small, v).Keys, {v.value});
    }
  }

  lemma WorkKeepsInclusion<K(!new), V>(small: State<K, V>, large: State<K, V>, now: Time, workNow: Time)
    requires Included(small.storage, large.storage) && large.ttl == small.ttl
    requires large.workInterval == small.workInterval && large.lastWork == small.lastWork
    ensures Included(Worked(small, now, workNow).storage, Worked(large, now, workNow).storage)
  {
    var s, l := Worked(small, now, workNow), Worked(large, now, workNow);
    SubsetCard(l.storage.Keys - s.storage.Keys, large.storage.Keys - small.storage.Keys);
  }

  lemma InsertKeepsInclusion<K(!new), V>(small: State<K, V>, large: State<K, V>, clock: Time, call: Call<K, V>,
                                         small': State<K, V>, large': State<K, V>)
    requires Paired(small, large) && UsesApart(large, clock) && call.Insert?
    requires Serves(small, call, small', None) && Serves(large, call, large', None)
    ensures Included(small'.storage, large'.storage)
  {
    var v :| MayEvict(small, v) && small' == Inserted(small, v, call.key, call.value, call.now, call.workNow);
    var w :| MayEvict(large, w) && large' == Inserted(large, w, call.key, call.value, call.now, call.workNow);
    EvictionKeepsInclusion(small, large, clock, v, w);
    var e := Entry(call.value, call.now, call.now);
    PutKeepsInclusion(Evicted(small, v), Evicted(large, w), call.key, e);
    WorkKeepsInclusion(small.(storage := Evicted(small, v)[call.key := e]),
                       large.(storage := Evicted(large, w)[call.key := e]),
                       call.now, call.workNow);
  }

  /** Inclusion is kept if no entry is missing afterwards that was not missing before. */
  lemma NoneMissing<K(!new), V>(s: map<K, Entry<V>>, l: map<K, Entry<V>>, s': map<K, Entry<V>>, l': map<K, Entry<V>>)
    requires |l.Keys - s.Keys| <= 1
    requires forall k :: k in s' ==> k in l' && l'[k] == s'[k]
    requires forall k :: k in l' && k !in s' ==> k in l && k !in s
    ensures Included(s', l')
  {
    assert l'.Keys - s'.Keys <= l.Keys - s.Keys;
    SubsetCard(l'.Keys - s'.Keys, l.Keys - s.Keys);
  }

  lemma PutKeepsInclusion<K(!new), V>(s: map<K, Entry<V>>, l: map<K, Entry<V>>, key: K, e: Entry<V>)
    requires Included(s, l)
    ensures Included(s[key := e], l[key := e])
  {
    NoneMissing(s, l, s[key := e], l[key := e]);
  }

  lemma LookKeepsInclusion<K(!new), V>(s: map<K, Entry<V>>, l: map<K, Entry<V>>, key: K, ttl: Time, now: Time)
    requires Included(s, l)
    ensures Included(Looked(s, key, ttl, now), Looked(l, key, ttl, now))
  {
    hide Expired;
    NoneMissing(s, l, Looked(s, key, ttl, now), Looked(l, key, ttl, now));
  }

  lemma GetKeepsInclusion<K(!new), V>(small: State<K, V>, large: State<K, V>, call: Call<K, V>,
                                      small': State<K, V>, large': State<K, V>, r: Option<V>, q: Option<V>)
    requires Paired(small, large) && call.Get?
    requires Serves(small, call, small', r) && Serves(large, call, large', q)
    ensures Included(small'.storage, large'.storage)
  {
    hide Included;
    hide Looked;
    WorkKeepsInclusion(small, large, call.now, call.workNow);
    LookKeepsInclusion(Worked(small, call.now, call.workNow).storage, Worked(large, call.now, call.workNow).storage,
                       call.key, small.ttl, call.now);
  }

  lemma StepKeepsSettings<K(!new), V>(c: State<K, V>, call: Call<K, V>, after: State<K, V>, result: Option<V>)
    requires Serves(c, call, after, result)
    ensures after.ttl == c.ttl && after.workInterval == c.workInterval && after.maxEntries == c.maxEntries
    ensures after.lastWork == if WorkDue(c, call.now) then call.workNow else c.lastWork
  {
  }

  lemma StepKeepsPaired<K(!new), V>(small: State<K, V>, large: State<K, V>, clock: Time, call: Call<K, V>,
                                    small': State<K, V>, large': State<K, V>, r: Option<V>, q: Option<V>)
    requires Paired(small, large) && UsesApart(large, clock)
    requires Serves(small, call, small', r) && Serves(large, call, large', q)
    ensures Paired(small', large')
  {
    StepKeepsSettings(small, call, small', r);
    StepKeepsSettings(large, call, large', q);
    StepKeepsLimit(large, call, large', q);
    if call.Insert? {
      InsertKeepsInclusion(small, large, clock, call, small', large');
    } else {
      GetKeepsInclusion(small, large, call, small', large', r, q);
    }
  }

  lemma {:induction false} RunKeepsPaired<K(!new), V>(small: seq<State<K, V>>, large: seq<State<K, V>>,
                                                      calls: seq<Call<K, V>>, r: seq<Option<V>>, q: seq<Option<V>>)
    requires IsRun(small, calls, r) && IsRun(large, calls, q) && Strict(calls) && Paired(small[0], large[0])
    ensures Paired(small[|calls|], large[|calls|])
  {
    if calls != [] {
      hide Paired;
      hide Serves;
      hide UsesApart;
      var n := |calls| - 1;
      RunKeepsPaired(small[..n + 1], large[..n + 1], calls[..n], r[..n], q[..n]);
      RunKeepsLimit(large[..n + 1], calls[..n], q[..n]);
      StepKeepsPaired(small[n], large[n], Clock(calls[..n]), calls[n], small[n + 1], large[n + 1], r[n], q[n]);
    }
  }

  /** LRU inclusion: replay the same calls at the same clock readings on caches with limits `m` and
      `m + 1`, both empty at first.  After every call the smaller cache is contained in the larger
      one, with equal values and timestamps, and the larger one has at most one entry more. */
  lemma LruInclusion<K(!new), V>(small: seq<State<K, V>>, large: seq<State<K, V>>, calls: seq<Call<K, V>>,
                                 r: seq<Option<V>>, q: seq<Option<V>>, i: nat)
    requires IsRun(small, calls, r) && IsRun(large, calls, q) && Strict(calls) && i <= |calls|
    requires small[0].maxEntries >= 1 && large[0].maxEntries == small[0].maxEntries + 1
    requires small[0].ttl == large[0].ttl && small[0].workInterval == large[0].workInterval
    ensures Included(small[i].storage, large[i].storage)
    ensures |small[i].storage| <= |large[i].storage| <= |small[i].storage| + 1
    ensures i < |calls| && r[i].Some? ==> q[i] == r[i]
  {
    RunKeepsPaired(small[..i + 1], large[..i + 1], calls[..i], r[..i], q[..i]);
    Shrinks(small[i].storage, large[i].storage);
    if i < |calls| {
      assert Serves(small[i], calls[i], small[i + 1], r[i]) && Serves(large[i], calls[i], large[i + 1], q[i]);
    }
  }
}
