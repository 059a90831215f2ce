/** What the list denotations of the adapters mean, item by item, without reference to how they run. */
module PipelineLaws {
  import opened Wrappers
  import opened Pipelines

  /** A callable that keeps no state. */
  function Pure<R>(h: Val -> R): Fn<R> { Fn(Leaf(0), (state, x) => (state, h(x))) }

  /** The callable of `enumerate`: counts its calls from `n` on. */
  function Counter(n: int): Fn<Val> {
    Fn(Leaf(n), (state: Val, x) => (if state.Leaf? then Leaf(state.n + 1) else state, Tuple(state, x)))
  }

  function Enumerate(p: Pipe): Pipe { Map(p, Counter(0)) }

  function FlatMap(p: Pipe, h: Val -> Val): Pipe { Flatten(Map(p, Pure(h)), None) }

  lemma {:induction false} MapIsPointwise(s: seq<Val>, h: Val -> Val)
    ensures |Mapped(s, Pure(h))| == |s|
    ensures forall i :: 0 <= i < |s| ==> Mapped(s, Pure(h))[i] == h(s[i])
  {
    if s != [] {
      MapIsPointwise(s[1..], h);
      assert Pure(h).(state := Leaf(0)) == Pure(h);
    }
  }

  lemma {:induction false} CounterNumbers(s: seq<Val>, n: int)
    ensures |Mapped(s, Counter(n))| == |s|
    ensures forall i :: 0 <= i < |s| ==> Mapped(s, Counter(n))[i] == Tuple(Leaf(n + i), s[i])
  {
    if s != [] {
      CounterNumbers(s[1..], n + 1);
      assert Counter(n).(state := Leaf(n + 1)) == Counter(n + 1);
    }
  }

  /** `enumerate` pairs each item with its position. */
  lemma EnumerateNumbers(p: Pipe)
    requires Valid(p)
    ensures Valid(Enumerate(p)) && |Denote(Enumerate(p))| == |Denote(p)|
    ensures forall i :: 0 <= i < |Denote(p)| ==> Denote(Enumerate(p))[i] == Tuple(Leaf(i), Denote(p)[i])
  {
    CounterNumbers(Denote(p), 0);
  }

  lemma {:induction false} FilteredConcat(s: seq<Val>, t: seq<Val>, q: Val -> bool)
    ensures Filtered(s + t, Pure(q)) == Filtered(s, Pure(q)) + Filtered(t, Pure(q))
  {
    if s == [] {
      assert s + t == t;
    } else {
      FilteredConcat(s[1..], t, q);
      assert (s + t)[1..] == s[1..] + t;
      assert Pure(q).(state := Leaf(0)) == Pure(q);
    }
  }

  /** `filter` keeps exactly the items that satisfy the predicate, each as often as it occurs. */
  lemma {:induction false} FilterSelects(s: seq<Val>, q: Val -> bool, x: Val)
    ensures multiset(Filtered(s, Pure(q)))[x] == if q(x) then multiset(s)[x] else 0
  {
    if s != [] {
      FilterSelects(s[1..], q, x);
      assert s == [s[0]] + s[1..];
      assert Pure(q).(state := Leaf(0)) == Pure(q);
    }
  }

  /** `filterMap` is dropping what maps to nothing, then `map`. */
  lemma {:induction false} FilterMapSplits(s: seq<Val>, h: Val -> Option<Val>, q: Val -> bool, y: Val -> Val)
    requires forall x :: q(x) == h(x).Some? && (h(x).Some? ==> y(x) == h(x).value)
    ensures FilterMapped(s, Pure(h)) == Mapped(Filtered(s, Pure(q)), Pure(y))
  {
    if s != [] {
      FilterMapSplits(s[1..], h, q, y);
      var kept := Filtered(s[1..], Pure(q));
      assert ([s[0]] + kept)[1..] == kept;
      assert Filtered(s, Pure(q)) == if q(s[0]) then [s[0]] + kept else kept;
      assert Pure(h).(state := Leaf(0)) == Pure(h) && Pure(q).(state := Leaf(0)) == Pure(q);
      assert Pure(y).(state := Leaf(0)) == Pure(y);
    }
  }

  lemma {:induction false} ZipPairs(s: seq<Val>, t: seq<Val>)
    ensures |Zipped(s, t)| == if |s| < |t| then |s| else |t|
    ensures forall i :: 0 <= i < |Zipped(s, t)| ==> Zipped(s, t)[i] == Tuple(s[i], t[i])
  {
    if s != [] && t != [] {
      ZipPairs(s[1..], t[1..]);
    }
  }

  /** `arrayChunks` cuts full chunks off the front and drops an incomplete last one: flattening the
      chunks gives back all but fewer than `size` last items. */
  lemma {:induction false} ChunksPartition(s: seq<Val>, size: nat)
    requires size >= 1
    ensures forall c :: c in Chunked(s, size) ==> c.List? && |c.items| == size
    ensures Flat(Chunked(s, size)) <= s && |s| < |Flat(Chunked(s, size))| + size
  {
    if |s| >= size {
      ChunksPartition(s[size..], size);
      assert s == s[..size] + s[size..];
    }
  }

  lemma FlatUnfold(x: Val, s: seq<Val>)
    ensures Flat([x] + s) == Elements(x) + Flat(s)
  {
    assert ([x] + s)[1..] == s;
  }

  lemma ConcatFront<T>(x: T, s: seq<T>, t: seq<T>)
    ensures ([x] + s) + t == [x] + (s + t)
  {
  }

  lemma Associative<T>(r: seq<T>, s: seq<T>, t: seq<T>)
    ensures r + (s + t) == (r + s) + t
  {
  }

  lemma {:induction false} FlatConcat(s: seq<Val>, t: seq<Val>)
    ensures Flat(s + t) == Flat(s) + Flat(t)
  {
    assert Flat([]) == [];
    hide *;
    if s == [] {
      assert s + t == t;
    } else {
      var x, tail := s[0], s[1..];
      assert s == [x] + tail;
      ConcatFront(x, tail, t);
      FlatUnfold(x, tail);
      FlatUnfold(x, tail + t);
      FlatConcat(tail, t);
      Associative(Elements(x), Flat(tail), Flat(t));
    }
  }

  /** `flatMap` of a list with one more item appends what the function gives for that item. */
  lemma FlatMapAppends(s: seq<Val>, x: Val, h: Val -> Val)
    ensures Denote(FlatMap(Source(s + [x]), h)) == Denote(FlatMap(Source(s), h)) + Elements(h(x))
  {
    MapIsPointwise(s + [x], h);
    MapIsPointwise(s, h);
    assert Mapped(s + [x], Pure(h)) == Mapped(s, Pure(h)) + [h(x)];
    FlatConcat(Mapped(s, Pure(h)), [h(x)]);
    assert Flat([h(x)]) == Elements(h(x)) + Flat([]);
    assert Denote(Map(Source(s), Pure(h))) == Mapped(s, Pure(h));
    assert Denote(Map(Source(s + [x]), Pure(h))) == Mapped(s + [x], Pure(h));
  }

  /** A quotient and a remainder are unique. */
  lemma Euclid(m: int, q: int, r: int, q': int, r': int)
    requires m * q + r == m * q' + r' && 0 <= r < m && 0 <= r' < m
    ensures r == r'
  {
    var d := q - q';
    assert m * d == r' - r;
    assert d >= 1 ==> m * d == m + m * (d - 1) >= m;
    assert d <= -1 ==> m * d == -m + m * (d + 1) <= -m;
  }

  ghost function Wrapped(i: nat, m: nat): (r: nat)
    requires m > 0
    ensures r < m
  {
    i % m
  }

  lemma WrapsOnce(m: nat, i: nat)
    requires m > 0
    ensures Wrapped(m + i, m) == Wrapped(i, m)
  {
    Euclid(m, (m + i) / m, (m + i) % m, i / m + 1, i % m);
  }

  lemma WrapsSmall(m: nat, i: nat)
    requires i < m
    ensures Wrapped(i, m) == i
  {
  }

  /** A cycle whose current round has got to item `k`. */
  ghost function CycledFrom(s: seq<Val>, k: nat, n: nat): seq<Val>
    requires k <= |s|
  {
    Cycled(s, s[k..], n)
  }

  /** The next item of a cycle, whether or not a round has just ended. */
  lemma CycledStep(s: seq<Val>, k: nat, n: nat)
    requires s != [] && k <= |s|
    ensures var first := if k == |s| then 0 else k;
            CycledFrom(s, k, n) == if n == 0 then [] else [s[first]] + CycledFrom(s, first + 1, n - 1)
  {
    if k < |s| {
      assert s[k..][1..] == s[k + 1..];
    }
  }

  lemma {:induction false} CycledWraps(s: seq<Val>, k: nat, n: nat, i: nat)
    requires s != [] && k <= |s| && i < n
    ensures |CycledFrom(s, k, n)| == n && CycledFrom(s, k, n)[i] == s[Wrapped(k + i, |s|)]
    decreases n
  {
    hide *;
    var first := if k == |s| then 0 else k;
    CycledStep(s, k, n);
    if k == |s| {
      WrapsOnce(|s|, i);
    }
    WrapsSmall(|s|, first);
    var rest := CycledFrom(s, first + 1, n - 1);
    if n == 1 {
      CycledStep(s, first + 1, 0);
    } else {
      CycledWraps(s, first + 1, n - 1, if i > 0 then i - 1 else 0);
    }
    assert i > 0 ==> rest[i - 1] == s[Wrapped(first + i, |s|)];
  }

  /** Taking `n` from a cycle of a non-empty list repeats the list. */
  lemma CycleRepeats(p: Pipe, n: nat)
    requires Valid(p) && Denote(p) != []
    ensures Valid(TakeCycle(p, p, n)) && |Denote(TakeCycle(p, p, n))| == n
    ensures forall i :: 0 <= i < n ==> Denote(TakeCycle(p, p, n))[i] == Denote(p)[i % |Denote(p)|]
  {
    var s := Denote(p);
    assert s[0..] == s;
    assert Denote(TakeCycle(p, p, n)) == CycledFrom(s, 0, n);
    CycledStep(s, 0, 0);
    hide CycledFrom;
    hide Cycled;
    hide Denote;
    if n > 0 {
      CycledWraps(s, 0, n, 0);
    }
    forall i | 0 <= i < n
      ensures CycledFrom(s, 0, n)[i] == s[i % |s|]
    {
      CycledWraps(s, 0, n, i);
      assert Wrapped(i, |s|) == i % |s|;
    }
  }

  // --------------------------------------------------------------------------- sources, item by item

  /** A container is its items, one value is itself, a repetition is that many copies, and a range counts
      from its start up to its end. */
  lemma SourcesAre(items: seq<Val>, v: Val, n: nat, from: int, end: int)
    requires from <= end
    ensures Denote(Source(items)) == items && Denote(Once(Some(v))) == [v] && Denote(Once(None)) == []
    ensures |Denote(Repeat(v, n))| == n && forall i :: 0 <= i < n ==> Denote(Repeat(v, n))[i] == v
    ensures |Denote(Range(from, end))| == end - from
    ensures forall i :: 0 <= i < end - from ==> Denote(Range(from, end))[i] == Leaf(from + i)
  {
  }

  /** `chain` hands out the items of the first, then those of the second. */
  lemma ChainIs(p: Pipe, q: Pipe)
    requires Valid(p) && Valid(q)
    ensures |Denote(Chain(p, q))| == |Denote(p)| + |Denote(q)|
    ensures forall i :: 0 <= i < |Denote(p)| ==> Denote(Chain(p, q))[i] == Denote(p)[i]
    ensures forall i :: 0 <= i < |Denote(q)| ==> Denote(Chain(p, q))[|Denote(p)| + i] == Denote(q)[i]
  {
  }

  /** `take` hands out the first `n` items, or all of them if there are fewer. */
  lemma TakeIs(p: Pipe, n: nat)
    requires Valid(p)
    ensures |Denote(Take(p, n))| == if n < |Denote(p)| then n else |Denote(p)|
    ensures forall i :: 0 <= i < |Denote(Take(p, n))| ==> Denote(Take(p, n))[i] == Denote(p)[i]
  {
  }

  /** `skip` hands out the items from the `n`th on, or none if there are not so many. */
  lemma SkipIs(p: Pipe, n: nat)
    requires Valid(p)
    ensures |Denote(Skip(p, n))| == if n < |Denote(p)| then |Denote(p)| - n else 0
    ensures forall i :: 0 <= i < |Denote(Skip(p, n))| ==> Denote(Skip(p, n))[i] == Denote(p)[n + i]
  {
  }

  /** `flatten` hands out the items of the containers one container after the other. */
  lemma FlattenIs(items: seq<Val>, rest: seq<Val>)
    ensures Denote(Flatten(Source([]), None)) == []
    ensures Denote(Flatten(Source([List(items)] + rest), None)) == items + Denote(Flatten(Source(rest), None))
  {
    FlatUnfold(List(items), rest);
    assert Flat([]) == [];
  }

  // ------------------------------------------------------------------------- callables with state

  /** The state of a callable after it was called on the items of `s` in turn. */
  ghost function StateAfter<R>(f: Fn<R>, s: seq<Val>): Val {
    if s == [] then f.state else f.call(StateAfter(f, s[..|s| - 1]), s[|s| - 1]).0
  }

  /** What a callable returns for the item after those of `s`. */
  ghost function ResultFor<R>(f: Fn<R>, s: seq<Val>, x: Val): R { f.call(StateAfter(f, s), x).1 }

  lemma {:induction false} StateShifts<R>(f: Fn<R>, x: Val, s: seq<Val>)
    ensures StateAfter(f, [x] + s) == StateAfter(f.(state := f.call(f.state, x).0), s)
  {
    if s == [] {
      assert [x] + s == [x] && [x][..0] == [];
    } else {
      StateShifts(f, x, s[..|s| - 1]);
      assert ([x] + s)[..|s|] == [x] + s[..|s| - 1];
    }
  }

  /** `map` calls its callable once for each item, in order, with the state the calls before have left. */
  lemma {:induction false} MapKeepsState(s: seq<Val>, f: Fn<Val>, x: Val)
    ensures Mapped(s + [x], f) == Mapped(s, f) + [ResultFor(f, s, x)]
  {
    if s == [] {
      assert s + [x] == [x] && Mapped([], f.(state := f.call(f.state, x).0)) == [];
    } else {
      var g := f.(state := f.call(f.state, s[0]).0);
      MapKeepsState(s[1..], g, x);
      assert (s + [x])[1..] == s[1..] + [x] && [s[0]] + s[1..] == s;
      StateShifts(f, s[0], s[1..]);
    }
  }

  /** So does `filter`, for the items it drops as well. */
  lemma {:induction false} FilterKeepsState(s: seq<Val>, p: Fn<bool>, x: Val)
    ensures Filtered(s + [x], p) == Filtered(s, p) + if ResultFor(p, s, x) then [x] else []
  {
    if s == [] {
      assert s + [x] == [x] && Filtered([], p.(state := p.call(p.state, x).0)) == [];
    } else {
      var g := p.(state := p.call(p.state, s[0]).0);
      FilterKeepsState(s[1..], g, x);
      assert (s + [x])[1..] == s[1..] + [x] && [s[0]] + s[1..] == s;
      StateShifts(p, s[0], s[1..]);
      Associative(if p.call(p.state, s[0]).1 then [s[0]] else [], Filtered(s[1..], g),
                  if ResultFor(p, s, x) then [x] else []);
    }
  }

  lemma {:induction false} FilterMapKeepsState(s: seq<Val>, g: Fn<Option<Val>>, x: Val)
    ensures FilterMapped(s + [x], g) ==
            FilterMapped(s, g) + if ResultFor(g, s, x).Some? then [ResultFor(g, s, x).value] else []
  {
    if s == [] {
      assert s + [x] == [x] && FilterMapped([], g.(state := g.call(g.state, x).0)) == [];
    } else {
      var h := g.(state := g.call(g.state, s[0]).0);
      FilterMapKeepsState(s[1..], h, x);
      assert (s + [x])[1..] == s[1..] + [x] && [s[0]] + s[1..] == s;
      StateShifts(g, s[0], s[1..]);
      var first := if g.call(g.state, s[0]).1.Some? then [g.call(g.state, s[0]).1.value] else [];
      Associative(first, FilterMapped(s[1..], h), if ResultFor(g, s, x).Some? then [ResultFor(g, s, x).value] else []);
    }
  }

  /** The `join` consumer formats each item. */
  lemma {:induction false} ShownIs(s: seq<Val>, show: Val -> string)
    ensures |Shown(s, show)| == |s| && forall i :: 0 <= i < |s| ==> Shown(s, show)[i] == show(s[i])
  {
    if s != [] {
      ShownIs(s[1..], show);
    }
  }

  /** `take` and `skip` split a pipeline. */
  lemma TakeSkipSplit(p: Pipe, n: nat)
    requires Valid(p)
    ensures Valid(Take(p, n)) && Valid(Skip(p, n))
    ensures Denote(Chain(Take(p, n), Skip(p, n))) == Denote(p)
  {
    var s := Denote(p);
    assert n <= |s| ==> s == s[..n] + s[n..];
  }
}
