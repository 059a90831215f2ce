/** `SmallVec<T, N>`: `N` slots inline, a heap buffer once the capacity exceeds `N`.

    Elements are values, so destroying one has no effect; what a slot outside `[0, size)` holds is
    left open.  The union of the inline slots and the heap pointer is kept as two fields, of which
    the capacity says which one is in use. */
module SmallVec {
  import opened Words

  /** What growth depends on and costs; `moves` counts the elements `reserve` has relocated. */
  datatype Shape = Shape(inline: nat, size: nat, capacity: nat, moves: nat)

  ghost function Reserved(s: Shape, newCap: nat): Shape {
    if newCap <= s.capacity then s else s.(capacity := newCap, moves := s.moves + s.size)
  }

  function Max(a: int, b: int): int { if a < b then b else a }

  function Min(a: int, b: int): int { if a < b then a else b }

  /** Room for `extra` more elements. */
  ghost function Grown(s: Shape, extra: nat): Shape {
    if s.size + extra <= s.capacity then s else Reserved(s, CeilPow(s.size + extra))
  }

  ghost function Pushed(s: Shape): Shape {
    var g := Grown(s, 1);
    g.(size := g.size + 1)
  }

  ghost function Popped(s: Shape): Shape {
    if s.size == 0 then s else s.(size := s.size - 1)
  }

  /** A capacity that growth newly picks is the least power of two with enough room, so less than
      twice what is needed. */
  lemma GrowthIsTight(s: Shape, extra: nat)
    requires Grown(s, extra).capacity != s.capacity
    ensures IsCeilPow(Grown(s, extra).capacity, s.size + extra)
    ensures s.size + extra <= Grown(s, extra).capacity < 2 * (s.size + extra)
  {
    CeilPowIsCeil(s.size + extra);
  }

  // ------------------------------------------------------------------------- cost of growing

  datatype Op = Push | Pop

  /** The shape after a run of `push_back` and `pop_back` on a fresh vector. */
  ghost function ShapeAfter(inline: nat, ops: seq<Op>): Shape {
    if ops == [] then Shape(inline, 0, inline, 0) else
    var before := ShapeAfter(inline, ops[..|ops| - 1]);
    if ops[|ops| - 1].Push? then Pushed(before) else Popped(before)
  }

  ghost function Pushes(ops: seq<Op>): nat {
    if ops == [] then 0 else
    Pushes(ops[..|ops| - 1]) + if ops[|ops| - 1].Push? then 1 else 0
  }

  /** The potential argument: a heap capacity pays for all moves so far, and pushes pay for it. */
  ghost predicate Paid(s: Shape, pushes: nat) {
    && s.size <= pushes && s.size <= s.capacity
    && if s.capacity == s.inline then s.moves == 0
       else s.capacity > s.inline && IsPow(s.capacity) && s.moves < s.capacity < 2 * pushes
  }

  lemma PushKeepsPaid(s: Shape, pushes: nat)
    requires Paid(s, pushes)
    ensures Paid(Pushed(s), pushes + 1)
  {
    if s.size + 1 > s.capacity {
      CeilPowIsCeil(s.capacity + 1);
      if s.capacity > s.inline {
        var k: nat :| s.capacity == Pow(k);
        CeilPowOfPow(k);
      }
    }
  }

  lemma {:induction false} RunIsPaid(inline: nat, ops: seq<Op>)
    ensures Paid(ShapeAfter(inline, ops), Pushes(ops))
  {
    if ops != [] {
      var init := ops[..|ops| - 1];
      RunIsPaid(inline, init);
      if ops[|ops| - 1].Push? {
        PushKeepsPaid(ShapeAfter(inline, init), Pushes(init));
      }
    }
  }

  /** Growth is amortised: over any run of pushes and pops from a fresh vector, with any number of
      inline slots, fewer than two elements are relocated for each push. */
  lemma AmortisedGrowth(inline: nat, ops: seq<Op>)
    ensures ShapeAfter(inline, ops).moves <= 2 * Pushes(ops)
    ensures Pushes(ops) > 0 ==> ShapeAfter(inline, ops).moves < 2 * Pushes(ops)
  {
    RunIsPaid(inline, ops);
  }

  /** The bound is tight: pushing alone relocates the inline elements once and then, however many pushes
      there are, one less than the capacity in all if there is no inline slot. */
  lemma {:induction false} PushesAlone(inline: nat, ops: seq<Op>)
    requires forall op :: op in ops ==> op.Push?
    ensures var s := ShapeAfter(inline, ops);
            && s.size == |ops| == Pushes(ops) && s.inline == inline
            && s.capacity == (if |ops| <= inline then inline else CeilPow(|ops|))
            && s.moves == (if |ops| <= inline then 0 else inline + CeilPow(|ops|) - CeilPow(inline + 1))
  {
    if ops != [] {
      var n := |ops| - 1;
      PushesAlone(inline, ops[..n]);
      assert ops[n] in ops;
      NextCeilPow(n);
    }
  }

  /** Rounding up changes only past a power of two. */
  lemma NextCeilPow(n: nat)
    ensures n >= 1 && n < CeilPow(n) ==> CeilPow(n + 1) == CeilPow(n)
    ensures n >= 1 && n == CeilPow(n) ==> CeilPow(n + 1) == 2 * n
    ensures CeilPow(1) == 1
  {
    if n >= 1 {
      CeilPowIsCeil(n);
      if n < CeilPow(n) {
        CeilPowBetween(CeilPow(n), n, n + 1);
      } else {
        var k: nat :| n == Pow(k);
        CeilPowOfPow(k);
      }
    }
  }

  /** A pop gives back neither room nor moves. */
  lemma PopKeepsRoom(s: Shape)
    ensures Popped(s).capacity == s.capacity && Popped(s).moves == s.moves && Popped(s).inline == s.inline
    ensures Popped(s).size == if s.size == 0 then 0 else s.size - 1
  {
  }

  class SmallVec<T(0)> {
    const inline: nat
    const small: array<T>
    var large: array?<T>
    var size: nat
    var capacity: nat
    ghost var moves: nat

    ghost predicate Valid()
      reads this
    {
      && small.Length == inline
      && size <= capacity
      && inline <= capacity
      && (capacity > inline ==> large != null && large.Length == capacity && large != small)
    }

    ghost function Footprint(): set<object>
      reads this
    {
      {this, small} + if large != null then {large} else {}
    }

    function Data(): (data: array<T>)
      requires Valid()
      reads this
      ensures data.Length == capacity
    {
      if capacity > inline then large else small
    }

    /** The sequence the vector stands for. */
    ghost function Contents(): (s: seq<T>)
      requires Valid()
      reads this, Footprint()
      ensures |s| == size
    {
      Data()[..size]
    }

    ghost function GetShape(): Shape
      reads this
    {
      Shape(inline, size, capacity, moves)
    }

    constructor (n: nat)
      ensures Valid() && fresh(Footprint())
      ensures Contents() == [] && GetShape() == Shape(n, 0, n, 0)
    {
      inline := n;
      small := new T[n];
      large := null;
      size, capacity, moves := 0, n, 0;
    }

    method Reserve(newCap: nat)
      requires Valid()
      modifies this
      ensures Valid() && fresh(Footprint() - old(Footprint()))
      ensures Contents() == old(Contents())
      ensures GetShape() == Reserved(old(GetShape()), newCap)
      ensures capacity == Max(old(capacity), newCap)
      ensures moves == old(moves) + if newCap > old(capacity) then old(size) else 0
      ensures newCap <= old(capacity) ==> Data() == old(Data())
    {
      if newCap <= capacity {
        return;
      }
      var newStorage := new T[newCap];
      var data := Data();
      ghost var moved := 0;
      for i := 0 to size
        modifies newStorage
        invariant newStorage[..i] == data[..i] && moved == i
      {
        newStorage[i] := data[i];
        moved := moved + 1;
      }
      large := newStorage;
      capacity := newCap;
      moves := moves + moved;
    }

    method GrowFor(extra: nat)
      requires Valid() && size + extra <= HALF_WORD
      modifies this
      ensures Valid() && fresh(Footprint() - old(Footprint()))
      ensures Contents() == old(Contents())
      ensures GetShape() == Grown(old(GetShape()), extra) && size + extra <= capacity
    {
      assert CeilPow(1) == 1;
      hide CeilPow;
      if size + extra <= capacity {
        return;
      }
      var newCap := if capacity < 1 then 1 else capacity;
      while newCap < size + extra
        modifies {}
        invariant newCap >= 1
        invariant newCap >= size + extra ==> newCap == CeilPow(size + extra)
        decreases size + extra - newCap
      {
        var next := NextPowerOfTwo(newCap + 1);
        if next >= size + extra {
          CeilPowBetween(next, newCap + 1, size + extra);
        }
        newCap := next;
      }
      Reserve(newCap);
    }

    method EmplaceBack(value: T)
      requires Valid() && size < HALF_WORD
      modifies Footprint()
      ensures Valid() && fresh(Footprint() - old(Footprint()))
      ensures Contents() == old(Contents()) + [value]
      ensures GetShape() == Pushed(old(GetShape()))
    {
      GrowFor(1);
      Data()[size] := value;
      size := size + 1;
    }

    /** False stands for the exception thrown on an empty vector. */
    method PopBack() returns (ok: bool)
      requires Valid()
      modifies this`size
      ensures Valid() && ok == (old(size) > 0)
      ensures Contents() == if ok then old(Contents())[..old(size) - 1] else old(Contents())
      ensures GetShape() == Popped(old(GetShape()))
    {
      if size == 0 {
        return false;
      }
      size := size - 1;
      return true;
    }

    method Clear()
      requires Valid()
      modifies this`size
      ensures Valid() && Contents() == []
    {
      size := 0;
    }

    /** Moves the element of slot `from` to slot `to`. */
    method MoveOne(from: nat, to: nat)
      requires Valid() && from < capacity && to < capacity
      modifies Data()
      ensures forall k :: 0 <= k < capacity ==> Data()[k] == old(Data()[if k == to then from else k])
    {
      if from == to {
        return;
      }
      Data()[to] := Data()[from];
    }

    /** The backward loop: moves the slots `[index, size)` right, starting from the end. */
    method MoveTailRight(index: nat, count: nat)
      requires Valid() && index <= size && size + count <= capacity && count > 0
      modifies Data()
      ensures forall k :: 0 <= k < index ==> Data()[k] == old(Data()[k])
      ensures forall k :: index + count <= k < size + count ==> Data()[k] == old(Data()[k - count])
    {
      ghost var data, was := Data(), Data()[..];
      var i := size;
      while i > index
        invariant index <= i <= size && data == Data()
        invariant forall k :: 0 <= k < i ==> data[k] == was[k]
        invariant forall k :: i + count <= k < size + count ==> data[k] == was[k - count]
      {
        i := i - 1;
        MoveOne(i, i + count);
      }
    }

    /** The forward loop: moves the slots `[index, size)` left, starting from the front. */
    method MoveTailLeft(index: nat, count: nat)
      requires Valid() && 0 < count <= index <= size
      modifies Data()
      ensures forall k :: 0 <= k < index - count ==> Data()[k] == old(Data()[k])
      ensures forall k :: index - count <= k < size - count ==> Data()[k] == old(Data()[k + count])
    {
      ghost var data, was := Data(), Data()[..];
      var i := index;
      while i < size
        invariant index <= i <= size && data == Data()
        invariant forall k :: 0 <= k < index - count || i <= k < size ==> data[k] == was[k]
        invariant forall k :: index - count <= k < i - count ==> data[k] == was[k + count]
      {
        MoveOne(i, i - count);
        i := i + 1;
      }
    }

    /** `shift`; false stands for the failed assertion on the iterator.  The pointer returned is to the
        slot of the iterator as it was, not to where its element has gone. */
    method Shift(index: int, offset: int) returns (ok: bool, at: int)
      requires Valid() && size + offset <= HALF_WORD
      requires offset < 0 ==> index + offset >= 0
      modifies Footprint()
      ensures Valid() && fresh(Footprint() - old(Footprint())) && ok == (0 <= index <= old(size))
      ensures !ok ==> Contents() == old(Contents()) && GetShape() == old(GetShape())
      ensures ok ==> GetShape() == Grown(old(GetShape()), Max(offset, 0)).(size := old(size) + offset)
      ensures ok ==> forall k :: 0 <= k < index + Min(offset, 0) ==> Contents()[k] == old(Contents())[k]
      ensures ok ==> forall k :: index <= k < old(size) ==> Contents()[k + offset] == old(Contents())[k]
      ensures ok ==> at == index
    {
      hide CeilPow;
      hide Reserved;
      if !(0 <= index <= size) {
        return false, 0;
      }
      ghost var before := Contents();
      if offset > 0 {
        GrowFor(offset);
        SameSlots(before);
        MoveTailRight(index, offset);
      } else if offset < 0 {
        SameSlots(before);
        MoveTailLeft(index, -offset);
      } else {
        SameSlots(before);
      }
      assert forall k :: 0 <= k < index + Min(offset, 0) ==> Data()[k] == before[k];
      assert forall k :: index <= k < |before| ==> Data()[k + offset] == before[k];
      size := size + offset;
      SameSlots(Contents());
      return true, index;
    }

    lemma SameSlots(s: seq<T>)
      requires Valid() && Contents() == s
      ensures |s| == size && forall k :: 0 <= k < size ==> Data()[k] == s[k]
    {
    }

    /** Writes `values` to the slots from `at` on. */
    method WriteSlots(at: nat, values: seq<T>)
      requires Valid() && at + |values| <= capacity
      modifies Data()
      ensures forall k :: 0 <= k < capacity ==>
                Data()[k] == if at <= k < at + |values| then values[k - at] else old(Data()[k])
    {
      ghost var data, was := Data(), Data()[..];
      for i := 0 to |values|
        invariant data == Data()
        invariant forall k :: 0 <= k < capacity ==> data[k] == if at <= k < at + i then values[k - at] else was[k]
      {
        Data()[at + i] := values[i];
      }
    }

    /** A gap that `values` fill. */
    static lemma GapFilled(before: seq<T>, after: seq<T>, index: nat, values: seq<T>)
      requires index <= |before| && |after| == |before| + |values|
      requires forall k :: 0 <= k < index ==> after[k] == before[k]
      requires forall k :: index <= k < |before| ==> after[k + |values|] == before[k]
      requires forall k :: index <= k < index + |values| ==> after[k] == values[k - index]
      ensures after == before[..index] + values + before[index..]
    {
      var s := before[..index] + values + before[index..];
      forall k | 0 <= k < |after|
        ensures after[k] == s[k]
      {
        assert k >= index + |values| ==> after[(k - |values|) + |values|] == before[k - |values|];
      }
    }

    /** Inserts the values of a range that is not part of the vector. */
    method InsertRange(index: int, values: seq<T>) returns (ok: bool)
      requires Valid() && size + |values| <= HALF_WORD
      modifies Footprint()
      ensures Valid() && fresh(Footprint() - old(Footprint())) && ok == (0 <= index <= old(size))
      ensures Contents() == if ok then old(Contents())[..index] + values + old(Contents())[index..] else old(Contents())
      ensures GetShape() == if ok then Grown(old(GetShape()), |values|).(size := size) else old(GetShape())
    {
      hide Grown;
      ghost var before := Contents();
      var at;
      ok, at := Shift(index, |values|);
      if !ok {
        return;
      }
      SameSlots(Contents());
      WriteSlots(at, values);
      SameSlots(Contents());
      GapFilled(before, Contents(), index, values);
    }

    /** Returns the slot of the inserted value. */
    method Insert(index: int, value: T) returns (ok: bool, at: int)
      requires Valid() && size < HALF_WORD
      modifies Footprint()
      ensures Valid() && fresh(Footprint() - old(Footprint())) && ok == (0 <= index <= old(size))
      ensures Contents() == if ok then old(Contents())[..index] + [value] + old(Contents())[index..]
                            else old(Contents())
      ensures GetShape() == if ok then Grown(old(GetShape()), 1).(size := size) else old(GetShape())
      ensures ok ==> at == index && Contents()[at] == value
    {
      hide Grown;
      ghost var before := Contents();
      ok, at := Shift(index, 1);
      if !ok {
        return;
      }
      SameSlots(Contents());
      Data()[at] := value;
      SameSlots(Contents());
      GapFilled(before, Contents(), index, [value]);
    }

    method InsertFill(index: int, count: nat, value: T) returns (ok: bool)
      requires Valid() && size + count <= HALF_WORD
      modifies Footprint()
      ensures Valid() && fresh(Footprint() - old(Footprint())) && ok == (0 <= index <= old(size))
      ensures Contents() == if ok then old(Contents())[..index] + seq(count, _ => value) + old(Contents())[index..]
                            else old(Contents())
      ensures GetShape() == if ok then Grown(old(GetShape()), count).(size := size) else old(GetShape())
    {
      ok := InsertRange(index, seq(count, _ => value));
    }

    /** Removes `[first, last)`; false stands for the exception on a bad range.  The element behind the
        range is then in slot `first`; the slot returned is that one exactly when nothing was erased. */
    method Erase(first: int, last: int) returns (ok: bool, at: int)
      requires Valid() && size <= HALF_WORD
      modifies Footprint()
      ensures Valid() && fresh(Footprint() - old(Footprint())) && ok == (0 <= first <= last <= old(size))
      ensures Contents() == if ok then old(Contents())[..first] + old(Contents())[last..] else old(Contents())
      ensures capacity == old(capacity) && moves == old(moves)
      ensures ok ==> at == last && (at == first <==> first == last)
      ensures ok && last < old(size) ==> Contents()[first] == old(Contents())[last]
    {
      if first < 0 || last > size || first > last {
        return false, 0;
      }
      ok, at := Shift(last, -(last - first));
    }

    /** Copy assignment. */
    method CopyAssign(other: SmallVec<T>)
      requires Valid() && other.Valid() && other.inline == inline && other.size <= HALF_WORD
      requires other != this ==> Footprint() !! other.Footprint()
      modifies Footprint()
      ensures Valid() && fresh(Footprint() - old(Footprint()))
      ensures Contents() == old(other.Contents()) == other.Contents()
      ensures other != this ==> capacity == Max(old(capacity), other.size)
    {
      hide CeilPow;
      if other == this {
        return;
      }
      ghost var source := other.Contents();
      Clear();
      Reserve(other.size);
      for i := 0 to other.size
        invariant Valid() && fresh(Footprint() - old(Footprint())) && Footprint() !! other.Footprint()
        invariant other.Valid() && other.Contents() == source && size == i
        invariant capacity == Max(old(capacity), other.size)
        invariant Contents() == source[..i]
      {
        assert source[..i + 1] == source[..i] + [source[i]];
        assert other.Data()[i] == source[i];
        EmplaceBack(other.Data()[i]);
      }
    }

    /** Move assignment: a heap buffer is taken over, inline elements are moved one by one. */
    method MoveAssign(other: SmallVec<T>)
      requires Valid() && other.Valid() && other.inline == inline
      requires other != this ==> Footprint() !! other.Footprint()
      modifies Footprint(), other
      ensures Valid() && other.Valid()
      ensures Contents() == old(other.Contents()) && capacity == old(other.capacity)
      ensures other == this ==> Footprint() == old(Footprint())
      ensures other != this ==> Footprint() !! other.Footprint()
                                && Footprint() + other.Footprint() <= old(Footprint()) + old(other.Footprint())
      ensures other != this && old(other.capacity) > inline ==>
                Data() == old(other.Data()) && other.Contents() == [] && other.capacity == inline
      ensures other != this && old(other.capacity) == inline ==>
                other.size == old(other.size) && other.capacity == inline
    {
      if other == this {
        return;
      }
      Clear();
      if other.capacity > inline {
        capacity, size, large := other.capacity, other.size, other.large;
        other.large, other.size, other.capacity := null, 0, inline;
      } else {
        large := null;
        capacity, size := inline, other.size;
        for i := 0 to size
          invariant Valid() && small[..i] == other.small[..i]
          modifies small
        {
          small[i] := other.small[i];
        }
      }
    }
  }
}
