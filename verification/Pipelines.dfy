/** Lazy iterator pipelines.

    An adapter stores the iterator it adapts by value, so a whole pipeline is one value that `next`
    updates in place; `Advance` takes that value and returns the updated one.  Callables may keep
    state, which is what `enumerate` does.  Items that `flatten` unpacks are containers. */
module Pipelines {
  import opened Wrappers
  import Split

  datatype Val = Leaf(n: int) | Tuple(first: Val, second: Val) | List(items: seq<Val>)

  /** A callable and the state it keeps between calls. */
  datatype Fn<+R> = Fn(state: Val, call: (Val, Val) -> (Val, R))

  datatype Pipe =
    | Source(rest: seq<Val>)                          // the range of a container still ahead
    | Once(value: Option<Val>)
    | Repeat(elem: Val, times: nat)
    | Range(from: int, end: int)
    | Map(inner: Pipe, f: Fn<Val>)
    | Filter(inner: Pipe, p: Fn<bool>)
    | FilterMap(inner: Pipe, g: Fn<Option<Val>>)
    | Chain(left: Pipe, right: Pipe)
    | Zip(left: Pipe, right: Pipe)
    | Take(inner: Pipe, n: nat)
    | Skip(inner: Pipe, n: nat)
    | ArrayChunks(inner: Pipe, size: nat)
    | Flatten(inner: Pipe, current: Option<seq<Val>>) // what is left of the container being unpacked
    | TakeCycle(original: Pipe, inner: Pipe, n: nat)  // `cycle` directly under `take`

  function Max(a: nat, b: nat): nat { if a < b then b else a }

  function Depth(p: Pipe): (d: nat) {
    match p
    case Source(_) | Once(_) | Repeat(_, _) | Range(_, _) => 0
    case Chain(left, right) => 1 + Max(Depth(left), Depth(right))
    case Zip(left, right) => 1 + Max(Depth(left), Depth(right))
    case Map(inner, _) => 1 + Depth(inner)
    case Filter(inner, _) => 1 + Depth(inner)
    case FilterMap(inner, _) => 1 + Depth(inner)
    case Take(inner, _) => 1 + Depth(inner)
    case Skip(inner, _) => 1 + Depth(inner)
    case ArrayChunks(inner, _) => 1 + Depth(inner)
    case Flatten(inner, _) => 1 + Depth(inner)
    case TakeCycle(original, inner, _) => 1 + Depth(inner)
  }

  /** Ranges go up and chunks are not empty, which is what draining needs; a cycle restarts from a
      copy of the pipeline it runs through. */
  predicate Valid(p: Pipe) {
    match p
    case Source(_) | Once(_) | Repeat(_, _) => true
    case Range(from, end) => from <= end
    case Chain(left, right) => Valid(left) && Valid(right)
    case Zip(left, right) => Valid(left) && Valid(right)
    case Map(inner, _) => Valid(inner)
    case Filter(inner, _) => Valid(inner)
    case FilterMap(inner, _) => Valid(inner)
    case Take(inner, _) => Valid(inner)
    case Skip(inner, _) => Valid(inner)
    case ArrayChunks(inner, size) => Valid(inner) && size >= 1
    case Flatten(inner, _) => Valid(inner)
    case TakeCycle(original, inner, _) => Valid(original) && Valid(inner) && Depth(original) == Depth(inner)
  }

  // -------------------------------------------------------------------------------- denotation

  function Elements(v: Val): seq<Val> { if v.List? then v.items else [] }

  ghost function Mapped(s: seq<Val>, f: Fn<Val>): seq<Val> {
    if s == [] then [] else
    var (state, y) := f.call(f.state, s[0]);
    [y] + Mapped(s[1..], f.(state := state))
  }

  ghost function Filtered(s: seq<Val>, p: Fn<bool>): seq<Val> {
    if s == [] then [] else
    var (state, keep) := p.call(p.state, s[0]);
    (if keep then [s[0]] else []) + Filtered(s[1..], p.(state := state))
  }

  ghost function FilterMapped(s: seq<Val>, g: Fn<Option<Val>>): seq<Val> {
    if s == [] then [] else
    var (state, y) := g.call(g.state, s[0]);
    (if y.Some? then [y.value] else []) + FilterMapped(s[1..], g.(state := state))
  }

  ghost function Zipped(s: seq<Val>, t: seq<Val>): seq<Val> {
    if s == [] || t == [] then [] else [Tuple(s[0], t[0])] + Zipped(s[1..], t[1..])
  }

  ghost function Chunked(s: seq<Val>, size: nat): seq<Val>
    requires size >= 1
  {
    if |s| < size then [] else [List(s[..size])] + Chunked(s[size..], size)
  }

  ghost function Flat(s: seq<Val>): seq<Val> {
    if s == [] then [] else Elements(s[0]) + Flat(s[1..])
  }

  ghost function FirstOf(s: seq<Val>, n: nat): seq<Val> { if n <= |s| then s[..n] else s }

  ghost function Without(s: seq<Val>, n: nat): seq<Val> { if n <= |s| then s[n..] else [] }

  ghost function Copies(v: Val, n: nat): seq<Val> { seq(n, _ => v) }

  ghost function Ints(from: int, end: int): seq<Val>
    requires from <= end
  {
    seq(end - from, i requires 0 <= i => Leaf(from + i))
  }

  /** `n` items of a cycle over `s` of which `now` is what is left of the current round. */
  ghost function Cycled(s: seq<Val>, now: seq<Val>, n: nat): seq<Val>
    decreases n
  {
    if n == 0 then []
    else if now != [] then [now[0]] + Cycled(s, now[1..], n - 1)
    else if s != [] then [s[0]] + Cycled(s, s[1..], n - 1)
    else []
  }

  /** The list a pipeline stands for. */
  ghost function Denote(p: Pipe): seq<Val>
    requires Valid(p)
  {
    match p
    case Source(rest) => rest
    case Once(value) => if value.Some? then [value.value] else []
    case Repeat(elem, times) => Copies(elem, times)
    case Range(from, end) => Ints(from, end)
    case Map(inner, f) => Mapped(Denote(inner), f)
    case Filter(inner, p) => Filtered(Denote(inner), p)
    case FilterMap(inner, g) => FilterMapped(Denote(inner), g)
    case Chain(left, right) => Denote(left) + Denote(right)
    case Zip(left, right) => Zipped(Denote(left), Denote(right))
    case Take(inner, n) => FirstOf(Denote(inner), n)
    case Skip(inner, n) => Without(Denote(inner), n)
    case ArrayChunks(inner, size) => Chunked(Denote(inner), size)
    case Flatten(inner, current) => (if current.Some? then current.value else []) + Flat(Denote(inner))
    case TakeCycle(original, inner, n) => Cycled(Denote(original), Denote(inner), n)
  }

  /** What one call of `next` has to do to a list: hand out its head, or nothing if it is empty. */
  ghost predicate Yields(s: seq<Val>, item: Option<Val>, rest: seq<Val>) {
    if s == [] then item == None && rest == [] else item == Some(s[0]) && rest == s[1..]
  }

  // ---------------------------------------------------------------------------------------- next

  method Advance(p: Pipe) returns (item: Option<Val>, p': Pipe)
    requires Valid(p)
    ensures Valid(p') && Depth(p') == Depth(p) && Yields(Denote(p), item, Denote(p'))
    decreases Depth(p), 1
  {
    match p
    case Source(_) | Once(_) | Repeat(_, _) => item, p' := AdvanceSource(p);
    case Range(_, _) => item, p' := AdvanceRange(p);
    case Map(_, _) => item, p' := AdvanceMap(p);
    case Filter(_, _) => item, p' := AdvanceFilter(p);
    case FilterMap(_, _) => item, p' := AdvanceFilterMap(p);
    case Chain(_, _) => item, p' := AdvanceChain(p);
    case Zip(_, _) => item, p' := AdvanceZip(p);
    case Take(_, _) => item, p' := AdvanceTake(p);
    case Skip(_, _) => item, p' := AdvanceSkip(p);
    case ArrayChunks(_, _) => item, p' := AdvanceChunk(p);
    case Flatten(_, _) => item, p' := AdvanceFlatten(p);
    case TakeCycle(_, _, _) => item, p' := AdvanceCycle(p);
  }

  method AdvanceSource(p: Pipe) returns (item: Option<Val>, p': Pipe)
    requires Valid(p) && (p.Source? || p.Once? || p.Repeat?)
    ensures Valid(p') && Depth(p') == Depth(p) && Yields(Denote(p), item, Denote(p'))
  {
    match p
    case Source(rest) =>
      if rest == [] {
        return None, p;
      }
      return Some(rest[0]), Source(rest[1..]);
    case Once(value) =>
      return value, Once(None);
    case Repeat(elem, times) =>
      if times == 0 {
        return None, p;
      }
      return Some(elem), Repeat(elem, times - 1);
  }

  method AdvanceRange(p: Pipe) returns (item: Option<Val>, p': Pipe)
    requires Valid(p) && p.Range?
    ensures Valid(p') && Depth(p') == Depth(p) && Yields(Denote(p), item, Denote(p'))
  {
    if p.from == p.end {
      return None, p;
    }
    return Some(Leaf(p.from)), Range(p.from + 1, p.end);
  }

  method AdvanceMap(p: Pipe) returns (item: Option<Val>, p': Pipe)
    requires Valid(p) && p.Map?
    ensures Valid(p') && Depth(p') == Depth(p) && Yields(Denote(p), item, Denote(p'))
    decreases Depth(p), 0
  {
    var it, f := p.inner, p.f;
    item, it := Advance(it);
    if item == None {
      return None, Map(it, f);
    }
    var (state, y) := f.call(f.state, item.value);
    return Some(y), Map(it, f.(state := state));
  }

  method AdvanceChain(p: Pipe) returns (item: Option<Val>, p': Pipe)
    requires Valid(p) && p.Chain?
    ensures Valid(p') && Depth(p') == Depth(p) && Yields(Denote(p), item, Denote(p'))
    decreases Depth(p), 0
  {
    var left, right := p.left, p.right;
    item, left := Advance(left);
    if item == None {
      item, right := Advance(right);
    }
    p' := Chain(left, right);
  }

  method AdvanceZip(p: Pipe) returns (item: Option<Val>, p': Pipe)
    requires Valid(p) && p.Zip?
    ensures Valid(p') && Depth(p') == Depth(p) && Yields(Denote(p), item, Denote(p'))
    decreases Depth(p), 0
  {
    var left, right, item2 := p.left, p.right, None;
    item, left := Advance(left);
    item2, right := Advance(right);
    p' := Zip(left, right);
    item := if item.Some? && item2.Some? then Some(Tuple(item.value, item2.value)) else None;
  }

  method AdvanceTake(p: Pipe) returns (item: Option<Val>, p': Pipe)
    requires Valid(p) && p.Take?
    ensures Valid(p') && Depth(p') == Depth(p) && Yields(Denote(p), item, Denote(p'))
    decreases Depth(p), 0
  {
    if p.n == 0 {
      return None, p;
    }
    var it := p.inner;
    item, it := Advance(it);
    p' := Take(it, p.n - 1);
  }

  /** `Cycle::next` for as long as the enclosing `take` asks. */
  method AdvanceCycle(p: Pipe) returns (item: Option<Val>, p': Pipe)
    requires Valid(p) && p.TakeCycle?
    ensures Valid(p') && Depth(p') == Depth(p) && Yields(Denote(p), item, Denote(p'))
    decreases Depth(p), 0
  {
    if p.n == 0 {
      return None, p;
    }
    var it := p.inner;
    item, it := Advance(it);
    if item == None {
      it := p.original;
      item, it := Advance(it);
    }
    p' := TakeCycle(p.original, it, p.n - 1);
  }

  method AdvanceFilter(p: Pipe) returns (item: Option<Val>, p': Pipe)
    requires Valid(p) && p.Filter?
    ensures Valid(p') && Depth(p') == Depth(p) && Yields(Denote(p), item, Denote(p'))
    decreases Depth(p), 0
  {
    var it, f := p.inner, p.p;
    while true
      invariant Valid(it) && Depth(it) == Depth(p.inner)
      invariant Filtered(Denote(it), f) == Denote(p)
      decreases |Denote(it)|
    {
      item, it := Advance(it);
      if item == None {
        return None, Filter(it, f);
      }
      var (state, keep) := f.call(f.state, item.value);
      f := f.(state := state);
      if keep {
        return item, Filter(it, f);
      }
    }
  }

  lemma FilterMappedUnfold(s: seq<Val>, g: Fn<Option<Val>>)
    requires s != []
    ensures var (state, y) := g.call(g.state, s[0]);
            FilterMapped(s, g) == (if y.Some? then [y.value] else []) + FilterMapped(s[1..], g.(state := state))
  {
  }

  method AdvanceFilterMap(p: Pipe) returns (item: Option<Val>, p': Pipe)
    requires Valid(p) && p.FilterMap?
    ensures Valid(p') && Depth(p') == Depth(p) && Yields(Denote(p), item, Denote(p'))
    decreases Depth(p), 0
  {
    assert forall f :: FilterMapped([], f) == [];
    hide FilterMapped;
    var it, f := p.inner, p.g;
    while true
      invariant Valid(it) && Depth(it) == Depth(p.inner)
      invariant FilterMapped(Denote(it), f) == Denote(p)
      decreases |Denote(it)|
    {
      ghost var s, g := Denote(it), f;
      item, it := Advance(it);
      if item == None {
        return None, FilterMap(it, f);
      }
      FilterMappedUnfold(s, g);
      var (state, ret) := f.call(f.state, item.value);
      f := f.(state := state);
      if ret.Some? {
        return ret, FilterMap(it, f);
      }
    }
  }

  method AdvanceSkip(p: Pipe) returns (item: Option<Val>, p': Pipe)
    requires Valid(p) && p.Skip?
    ensures Valid(p') && Depth(p') == Depth(p) && Yields(Denote(p), item, Denote(p'))
    decreases Depth(p), 0
  {
    var it, n := p.inner, p.n;
    while n > 0
      invariant Valid(it) && Depth(it) == Depth(p.inner)
      invariant Without(Denote(it), n) == Denote(p)
    {
      item, it := Advance(it);
      if item == None {
        return None, Skip(it, n);
      }
      n := n - 1;
    }
    item, it := Advance(it);
    p' := Skip(it, n);
  }

  method AdvanceChunk(p: Pipe) returns (item: Option<Val>, p': Pipe)
    requires Valid(p) && p.ArrayChunks?
    ensures Valid(p') && Depth(p') == Depth(p) && Yields(Denote(p), item, Denote(p'))
    decreases Depth(p), 0
  {
    var it, arr := p.inner, [];
    ghost var s := Denote(p.inner);
    for i := 0 to p.size
      invariant Valid(it) && Depth(it) == Depth(p.inner)
      invariant |arr| == i <= |s| && arr == s[..i] && Denote(it) == s[i..]
    {
      item, it := Advance(it);
      if item == None {
        return None, ArrayChunks(it, p.size);
      }
      arr := arr + [item.value];
    }
    return Some(List(arr)), ArrayChunks(it, p.size);
  }

  method AdvanceFlatten(p: Pipe) returns (item: Option<Val>, p': Pipe)
    requires Valid(p) && p.Flatten?
    ensures Valid(p') && Depth(p') == Depth(p) && Yields(Denote(p), item, Denote(p'))
    decreases Depth(p), 0
  {
    var it, cur := p.inner, p.current;
    while true
      invariant Valid(it) && Depth(it) == Depth(p.inner)
      invariant Denote(Flatten(it, cur)) == Denote(p)
      decreases |Denote(it)|
    {
      if cur.Some? {
        if cur.value != [] {
          return Some(cur.value[0]), Flatten(it, Some(cur.value[1..]));
        }
        cur := None;
      }
      item, it := Advance(it);
      if item == None {
        return None, Flatten(it, cur);
      }
      cur := Some(Elements(item.value));
    }
  }

  // -------------------------------------------------------------------------------- consumers

  ghost function Shown(s: seq<Val>, show: Val -> string): (r: seq<string>)
    ensures |r| == |s|
  {
    if s == [] then [] else [show(s[0])] + Shown(s[1..], show)
  }

  /** An iterator object. */
  class Iterator {
    var pipe: Pipe

    constructor (p: Pipe)
      ensures pipe == p
    {
      pipe := p;
    }

    method Next() returns (item: Option<Val>)
      requires Valid(pipe)
      modifies this
      ensures Valid(pipe) && Yields(old(Denote(pipe)), item, Denote(pipe))
    {
      item, pipe := Advance(pipe);
    }

    /** `collect` into a vector: draining ends, with exactly the list, and leaves the iterator exhausted. */
    method Collect() returns (cont: seq<Val>)
      requires Valid(pipe)
      modifies this
      ensures Valid(pipe) && cont == old(Denote(pipe)) && Denote(pipe) == []
    {
      cont := [];
      var item := Next();
      while item.Some?
        invariant Valid(pipe)
        invariant old(Denote(pipe)) == cont + (if item.Some? then [item.value] + Denote(pipe) else [])
        invariant item == None ==> Denote(pipe) == []
        decreases item.Some?, |Denote(pipe)|
      {
        cont := cont + [item.value];
        item := Next();
      }
    }

    method Count() returns (cnt: nat)
      requires Valid(pipe)
      modifies this
      ensures Valid(pipe) && cnt == |old(Denote(pipe))| && Denote(pipe) == []
    {
      cnt := 0;
      var item := Next();
      while item.Some?
        invariant Valid(pipe)
        invariant |old(Denote(pipe))| == cnt + (if item.Some? then 1 + |Denote(pipe)| else 0)
        invariant item == None ==> Denote(pipe) == []
        decreases item.Some?, |Denote(pipe)|
      {
        cnt := cnt + 1;
        item := Next();
      }
    }

    /** The items as text with the separator between them; `show` is the formatting of an item. */
    method Join(separator: string, show: Val -> string) returns (result: string)
      requires Valid(pipe)
      modifies this
      ensures Valid(pipe) && result == Split.Join(Shown(old(Denote(pipe)), show), separator) && Denote(pipe) == []
    {
      result := "";
      var first := true;
      ghost var done := [];
      var item := Next();
      while item.Some?
        invariant Valid(pipe)
        invariant result == Split.Join(done, separator) && first == (done == [])
        invariant Shown(old(Denote(pipe)), show) ==
                  done + if item.Some? then [show(item.value)] + Shown(Denote(pipe), show) else []
        invariant item == None ==> Denote(pipe) == []
        decreases item.Some?, |Denote(pipe)|
      {
        Split.JoinNext(done, show(item.value), separator);
        if !first {
          result := result + separator;
        } else {
          first := false;
        }
        result := result + show(item.value);
        Split.OneMore(done, show(item.value), Shown(Denote(pipe), show));
        done := done + [show(item.value)];
        item := Next();
      }
      assert done + [] == done;
    }
  }
}
