/** `PtrSwap`, an atomic cell holding a `SharedPtr`, on top of the reference-counting protocol.

    A cell is a slot that owns a strong reference, so every operation of a cell is made of steps of
    `RefCount` on slots: `load` copies, `swap` exchanges two slots, a successful compare-exchange of
    `rcu` moves the old pointer out and copies the new one in.  Each of them (a load with its
    increment, an exchange or compare-exchange with its retain) is one step here.
    Compare-exchange compares addresses, and the allocator may reuse an address that was freed. */
module PtrSwap {
  import opened Wrappers
  import opened RefCount

  /** What a pointer leads to: the value of the object, `None` for null. */
  type Content<V> = Option<V>

  /** An `rcu` call in progress; `old` and `new` are the slots of its local pointers. */
  datatype Call<!V> =
    | Loading(cell: Id, f: Content<V> -> Content<V>)
    | Loaded(cell: Id, f: Content<V> -> Content<V>, old_: Id)
    | Ready(cell: Id, f: Content<V> -> Content<V>, old_: Id, new_: Id)

  /** An entry of the history of a cell. */
  datatype Update<!V> =
    | Stored(content: Content<V>)
    | Updated(f: Content<V> -> Content<V>)

  datatype Memory<!V> = Memory(
    rc: State,
    values: map<Id, V>,            // of each block ever made; objects are not modified in place
    cells: set<Id>,
    calls: map<Id, Call<V>>,
    log: map<Id, seq<Update<V>>>)  // what was written to each cell, in the order it was written

  datatype Action<!V> =
    | Client(step: Step, value: V)                    // any step on pointers outside the cells
    | NewCell(cell: Id)
    | DestroyCell(cell: Id, t: Id)
    | Load(cell: Id, dst: Id)
    | SwapCopy(cell: Id, src: Id, ret: Id)
    | SwapMove(cell: Id, src: Id, ret: Id)
    | RcuStart(call: Id, cell: Id, f: Content<V> -> Content<V>)
    | RcuLoad(call: Id, dst: Id)
    | RcuReturn(call: Id, new_: Id)                   // the function returned the pointer in `new_`
    | RcuCas(call: Id, moved: Id, spurious: bool)

  /** The slots of pending `rcu` calls, which only those calls use up. */
  ghost predicate Reserved<V>(m: Memory<V>, slot: Id) {
    exists i :: i in m.calls && ((!m.calls[i].Loading? && m.calls[i].old_ == slot) ||
                                 (m.calls[i].Ready? && m.calls[i].new_ == slot))
  }

  ghost predicate ClientSlot<V>(m: Memory<V>, slot: Id) { slot !in m.cells && !Reserved(m, slot) }

  ghost predicate FreshSlot<V>(m: Memory<V>, slot: Id) { ClientSlot(m, slot) && slot !in m.rc.handles }

  ghost predicate StrongOrNull(rc: State, slot: Id) { slot in rc.handles ==> rc.handles[slot].Strong? }

  /** Slots that a step of the counting protocol creates or removes. */
  ghost function Touched(step: Step): set<Id> {
    match step
    case Make(_, _, dst) => {dst}
    case CopyStrong(_, dst, _) => {dst}
    case MakeWeak(_, dst, _) => {dst}
    case Move(src, dst, _) => {src, dst}
    case ReleaseStrong(h, _) => {h}
    case ReleaseWeak(h, _) => {h}
    case UpgradeCas(_, dst, _, _) => {dst}
    case _ => {}
  }

  ghost function ContentOf<V>(m: Memory<V>, slot: Id): Content<V>
    requires WellFormed(m.rc) && m.values.Keys == m.rc.blocks.Keys
  {
    if slot in m.rc.handles then Some(m.values[m.rc.handles[slot].block]) else None
  }

  /** The word a slot stores: the address of its block, zero for null. */
  ghost function Address(rc: State, slot: Id): nat
    requires WellFormed(rc)
  {
    if slot in rc.handles then rc.blocks[rc.handles[slot].block].addr else 0
  }

  ghost function Replay<V>(log: seq<Update<V>>): Content<V> {
    if log == [] then None else
    match log[|log| - 1]
    case Stored(content) => content
    case Updated(f) => f(Replay(log[..|log| - 1]))
  }

  // --------------------------------------------------------------------------------- invariant

  ghost predicate CallOk<V>(m: Memory<V>, i: Id)
    requires WellFormed(m.rc) && m.values.Keys == m.rc.blocks.Keys && i in m.calls
  {
    var call := m.calls[i];
    && call.cell in m.cells
    && (!call.Loading? ==> call.old_ !in m.cells && StrongOrNull(m.rc, call.old_))
    && (call.Ready? ==> call.new_ !in m.cells && StrongOrNull(m.rc, call.new_)
                        && ContentOf(m, call.new_) == call.f(ContentOf(m, call.old_)))
  }

  ghost predicate CellOk<V>(m: Memory<V>, c: Id)
    requires WellFormed(m.rc) && m.values.Keys == m.rc.blocks.Keys
  {
    StrongOrNull(m.rc, c) && c in m.log && ContentOf(m, c) == Replay(m.log[c])
  }

  ghost predicate Sound<V>(m: Memory<V>) {
    && WellFormed(m.rc) && Inv(m.rc)
    && m.values.Keys == m.rc.blocks.Keys
    && (forall c :: c in m.cells ==> CellOk(m, c))
    && (forall i :: i in m.calls ==> CallOk(m, i))
  }

  // ------------------------------------------------------------------------------- slot moves

  type Slots = map<Id, Handle>

  /** A move and a copy out of a slot that may be null. */
  ghost function Moved(h: Slots, src: Id, dst: Id): Slots {
    if src in h then (h - {src})[dst := h[src].(home := None)] else h
  }

  ghost function Copied(h: Slots, src: Id, dst: Id): Slots {
    if src in h then h[dst := Strong(h[src].block, None)] else h
  }

  ghost function MoveSlot(rc: State, src: Id, dst: Id): (r: State)
    requires Inv(rc) && StrongOrNull(rc, src) && dst !in rc.handles
    ensures Inv(r) && r.blocks.Keys == rc.blocks.Keys && r.handles == Moved(rc.handles, src, dst)
  {
    if src !in rc.handles then rc else
    StepKeepsInv(rc, Move(src, dst, None));
    Apply(rc, Move(src, dst, None))
  }

  ghost function CopySlot(rc: State, src: Id, dst: Id): (r: State)
    requires Inv(rc) && StrongOrNull(rc, src) && dst !in rc.handles
    ensures Inv(r) && r.blocks.Keys == rc.blocks.Keys && r.handles == Copied(rc.handles, src, dst)
  {
    if src !in rc.handles then rc else
    StepKeepsInv(rc, CopyStrong(src, dst, None));
    Apply(rc, CopyStrong(src, dst, None))
  }

  /** Writes the pointer of slot `src` to slot `cell`, the old pointer of `cell` going to slot `out`;
      `src` keeps its own pointer if `keep` is set. */
  ghost function Exchanged(h: Slots, cell: Id, src: Id, out: Id, keep: bool): Slots {
    if keep then Copied(Moved(h, cell, out), src, cell) else Moved(Moved(h, cell, out), src, cell)
  }

  ghost function Exchange(rc: State, cell: Id, src: Id, out: Id, keep: bool): (r: State)
    requires Inv(rc) && StrongOrNull(rc, cell) && StrongOrNull(rc, src) && out !in rc.handles
    requires src != cell && src != out && out != cell
    ensures Inv(r) && r.blocks.Keys == rc.blocks.Keys && r.handles == Exchanged(rc.handles, cell, src, out, keep)
  {
    var r := MoveSlot(rc, cell, out);
    if keep then CopySlot(r, src, cell) else MoveSlot(r, src, cell)
  }

  /** Slot `x` of `g` holds a pointer of the same kind to the same block as slot `y` of `h`. */
  ghost predicate SameSlot(g: Slots, x: Id, h: Slots, y: Id) {
    && (x in g <==> y in h)
    && (x in g ==> g[x].block == h[y].block && (g[x].Strong? <==> h[y].Strong?))
  }

  lemma ExchangedSlots(h: Slots, cell: Id, src: Id, out: Id, keep: bool)
    requires src != cell && src != out && out != cell && out !in h
    requires (cell in h ==> h[cell].Strong?) && (src in h ==> h[src].Strong?)
    ensures var g := Exchanged(h, cell, src, out, keep);
            && SameSlot(g, cell, h, src) && SameSlot(g, out, h, cell) && (!keep ==> src !in g)
            && forall x :: x != cell && x != out && (keep || x != src) ==> SameSlot(g, x, h, x)
  {
  }

  /** What an action does to the slots, in one atomic step. */
  datatype SlotOp =
    | Nothing
    | Primitive(step: Step)
    | Copy(src: Id, dst: Id)
    | Swap(cell: Id, src: Id, out: Id, keep: bool)

  ghost predicate OpEnabled(rc: State, op: SlotOp) {
    match op
    case Nothing => true
    case Primitive(step) => Enabled(rc, step)
    case Copy(src, dst) => StrongOrNull(rc, src) && dst !in rc.handles
    case Swap(cell, src, out, _) =>
      StrongOrNull(rc, cell) && StrongOrNull(rc, src) && out !in rc.handles && src != cell && src != out && out != cell
  }

  ghost function Perform(rc: State, op: SlotOp): (r: State)
    requires Inv(rc) && OpEnabled(rc, op)
    ensures Inv(r) && WellFormed(r)
    ensures r.blocks.Keys == rc.blocks.Keys + if op.Primitive? && op.step.Make? then {op.step.b} else {}
  {
    match op
    case Nothing => rc
    case Primitive(step) => StepKeepsInv(rc, step); Apply(rc, step)
    case Copy(src, dst) => CopySlot(rc, src, dst)
    case Swap(cell, src, out, keep) => Exchange(rc, cell, src, out, keep)
  }

  ghost function Changed(op: SlotOp): set<Id> {
    match op
    case Nothing => {}
    case Primitive(step) => Touched(step)
    case Copy(_, dst) => {dst}
    case Swap(cell, src, out, keep) => {cell, out} + if keep then {} else {src}
  }

  /** A slot that the operation does not name keeps its pointer. */
  lemma OtherSlots(rc: State, op: SlotOp, x: Id)
    requires Inv(rc) && OpEnabled(rc, op) && x !in Changed(op)
    ensures SameSlot(Perform(rc, op).handles, x, rc.handles, x)
  {
    hide Inv;
    hide Target;
    hide BlockAfter;
    hide TasksAfter;
    if op.Swap? {
      ExchangedSlots(rc.handles, op.cell, op.src, op.out, op.keep);
    }
  }

  // ------------------------------------------------------------------------------------- steps

  ghost predicate Allowed<V>(m: Memory<V>, a: Action<V>)
    requires Sound(m)
  {
    match a
    case Client(step, _) =>
      && Enabled(m.rc, step) && (forall x :: x in Touched(step) ==> ClientSlot(m, x))
      && (step.CopyStrong? || step.MakeWeak? ==> step.src !in m.cells)
    case NewCell(cell) => FreshSlot(m, cell)
    case DestroyCell(cell, t) =>
      && cell in m.cells && (forall i :: i in m.calls ==> m.calls[i].cell != cell)
      && t !in m.rc.tasks
    case Load(cell, dst) => cell in m.cells && FreshSlot(m, dst)
    case SwapCopy(cell, src, ret) =>
      cell in m.cells && src !in m.cells && StrongOrNull(m.rc, src) && FreshSlot(m, ret) && ret != src
    case SwapMove(cell, src, ret) =>
      cell in m.cells && ClientSlot(m, src) && StrongOrNull(m.rc, src) && FreshSlot(m, ret) && ret != src
    case RcuStart(call, cell, f) => cell in m.cells && call !in m.calls
    case RcuLoad(call, dst) => call in m.calls && m.calls[call].Loading? && FreshSlot(m, dst)
    case RcuReturn(call, new_) =>
      && call in m.calls && m.calls[call].Loaded? && ClientSlot(m, new_) && StrongOrNull(m.rc, new_)
      && ContentOf(m, new_) == m.calls[call].f(ContentOf(m, m.calls[call].old_))
    case RcuCas(call, moved, _) => call in m.calls && m.calls[call].Ready? && FreshSlot(m, moved)
  }

  /** The compare-exchange sees the address it expects. */
  ghost predicate Exchanges<V>(m: Memory<V>, a: Action<V>)
    requires Sound(m) && a.RcuCas? && Allowed(m, a)
  {
    var call := m.calls[a.call];
    Address(m.rc, call.cell) == Address(m.rc, call.old_) && !a.spurious
  }

  lemma CellSlot<V>(m: Memory<V>, cell: Id)
    requires Sound(m) && cell in m.cells
    ensures StrongOrNull(m.rc, cell)
  {
    assert CellOk(m, cell);
  }

  lemma CallSlots<V>(m: Memory<V>, call: Id)
    requires Sound(m) && call in m.calls
    ensures m.calls[call].cell in m.cells && StrongOrNull(m.rc, m.calls[call].cell)
    ensures m.calls[call].Ready? ==> StrongOrNull(m.rc, m.calls[call].new_) && m.calls[call].new_ !in m.cells
                                     && Reserved(m, m.calls[call].new_)
  {
    assert CallOk(m, call);
    CellSlot(m, m.calls[call].cell);
  }

  ghost function CasOp<V>(m: Memory<V>, a: Action<V>): (op: SlotOp)
    requires Sound(m) && a.RcuCas? && Allowed(m, a)
    ensures OpEnabled(m.rc, op)
  {
    CallSlots(m, a.call);
    var call := m.calls[a.call];
    if Exchanges(m, a) then Swap(call.cell, call.new_, a.moved, true) else Nothing
  }

  ghost function OpOf<V>(m: Memory<V>, a: Action<V>): (op: SlotOp)
    requires Sound(m) && Allowed(m, a)
    ensures OpEnabled(m.rc, op)
  {
    if a.DestroyCell? || a.Load? || a.SwapCopy? || a.SwapMove? then
      CellSlot(m, a.cell);
      match a
      case DestroyCell(cell, t) => if cell in m.rc.handles then Primitive(ReleaseStrong(cell, t)) else Nothing
      case Load(cell, dst) => Copy(cell, dst)
      case SwapCopy(cell, src, ret) => Swap(cell, src, ret, true)
      case SwapMove(cell, src, ret) => Swap(cell, src, ret, false)
    else
      match a
      case Client(step, _) => Primitive(step)
      case RcuLoad(call, dst) => CallSlots(m, call); Copy(m.calls[call].cell, dst)
      case RcuCas(_, _, _) => CasOp(m, a)
      case _ => Nothing
  }

  ghost function CallsAfter<V>(m: Memory<V>, a: Action<V>): map<Id, Call<V>>
    requires Sound(m) && Allowed(m, a)
  {
    match a
    case RcuStart(call, cell, f) => m.calls[call := Loading(cell, f)]
    case RcuLoad(call, dst) => m.calls[call := Loaded(m.calls[call].cell, m.calls[call].f, dst)]
    case RcuReturn(call, new_) =>
      m.calls[call := Ready(m.calls[call].cell, m.calls[call].f, m.calls[call].old_, new_)]
    case RcuCas(call, _, _) =>
      if Exchanges(m, a) then m.calls - {call}
      else m.calls[call := Loading(m.calls[call].cell, m.calls[call].f)]
    case _ => m.calls
  }

  /** The cell that the action writes, and what it writes there. */
  ghost function Written<V>(m: Memory<V>, a: Action<V>): (w: Option<(Id, Update<V>)>)
    requires Sound(m) && Allowed(m, a)
    ensures w.Some? ==> w.value.0 in m.cells
  {
    match a
    case SwapCopy(cell, src, _) => Some((cell, Stored(ContentOf(m, src))))
    case SwapMove(cell, src, _) => Some((cell, Stored(ContentOf(m, src))))
    case RcuCas(call, _, _) =>
      assert CallOk(m, call);
      if Exchanges(m, a) then Some((m.calls[call].cell, Updated(m.calls[call].f))) else None
    case _ => None
  }

  ghost function Do<V>(m: Memory<V>, a: Action<V>): Memory<V>
    requires Sound(m) && Allowed(m, a)
  {
    var w := Written(m, a);
    Memory(Perform(m.rc, OpOf(m, a)),
           if a.Client? && a.step.Make? then m.values[a.step.b := a.value] else m.values,
           if a.NewCell? then m.cells + {a.cell} else if a.DestroyCell? then m.cells - {a.cell} else m.cells,
           CallsAfter(m, a),
           if w.Some? then m.log[w.value.0 := m.log[w.value.0] + [w.value.1]]
           else if a.NewCell? then m.log[a.cell := []]
           else m.log)
  }

  // ------------------------------------------------------------------------------ preservation

  ghost predicate Consistent<V>(m: Memory<V>, after: Memory<V>) {
    && WellFormed(after.rc) && Inv(after.rc) && after.values.Keys == after.rc.blocks.Keys
    && forall b :: b in m.values ==> b in after.values && after.values[b] == m.values[b]
  }

  lemma CountsKept<V>(m: Memory<V>, a: Action<V>)
    requires Sound(m) && Allowed(m, a)
    ensures Consistent(m, Do(m, a))
  {
    hide Inv;
    hide Apply;
    hide CellOk;
    hide CallOk;
  }

  lemma OtherContents<V>(m: Memory<V>, a: Action<V>, x: Id)
    requires Sound(m) && Allowed(m, a) && x !in Changed(OpOf(m, a)) && Consistent(m, Do(m, a))
    ensures ContentOf(Do(m, a), x) == ContentOf(m, x)
    ensures StrongOrNull(m.rc, x) ==> StrongOrNull(Do(m, a).rc, x)
  {
    OtherSlots(m.rc, OpOf(m, a), x);
  }

  /** No ABA: while `rcu` holds on to the pointer it loaded, an equal address means the same object,
      although freed addresses are used again. */
  lemma NoAba<V>(m: Memory<V>, a: Action<V>)
    requires Sound(m) && a.RcuCas? && Allowed(m, a) && Exchanges(m, a)
    ensures SameSlot(m.rc.handles, m.calls[a.call].cell, m.rc.handles, m.calls[a.call].old_)
  {
    var cell, old_ := m.calls[a.call].cell, m.calls[a.call].old_;
    assert CallOk(m, a.call) && CellOk(m, cell);
    if cell in m.rc.handles {
      HandleReferent(m.rc, cell);
    }
    if old_ in m.rc.handles {
      HandleReferent(m.rc, old_);
    }
  }

  lemma SwappedContent<V>(m: Memory<V>, after: Memory<V>, op: SlotOp)
    requires Inv(m.rc) && m.values.Keys == m.rc.blocks.Keys && op.Swap? && OpEnabled(m.rc, op)
    requires Consistent(m, after) && after.rc == Perform(m.rc, op)
    ensures StrongOrNull(after.rc, op.cell) && ContentOf(after, op.cell) == ContentOf(m, op.src)
  {
    ExchangedSlots(m.rc.handles, op.cell, op.src, op.out, op.keep);
  }

  /** What is in the cell after a write is what the log says. */
  lemma WrittenContent<V>(m: Memory<V>, a: Action<V>)
    requires Sound(m) && Allowed(m, a) && Written(m, a).Some? && Consistent(m, Do(m, a))
    ensures CellOk(Do(m, a), Written(m, a).value.0)
  {
    var cell, u := Written(m, a).value.0, Written(m, a).value.1;
    assert CellOk(m, cell);
    var log := m.log[cell] + [u];
    assert log[..|log| - 1] == m.log[cell];
    SwappedContent(m, Do(m, a), OpOf(m, a));
    if a.RcuCas? {
      assert CallOk(m, a.call);
      NoAba(m, a);
    }
  }

  lemma CellKept<V>(m: Memory<V>, a: Action<V>, c: Id)
    requires Sound(m) && Allowed(m, a) && c in Do(m, a).cells && Consistent(m, Do(m, a))
    ensures CellOk(Do(m, a), c)
  {
    hide Inv;
    hide WellFormed;
    hide Perform;
    hide Enabled;
    if c in m.cells {
      assert CellOk(m, c);
    }
    if Written(m, a).Some? && Written(m, a).value.0 == c {
      WrittenContent(m, a);
    } else {
      OtherContents(m, a, c);
    }
  }

  lemma PendingSlotKept<V>(m: Memory<V>, a: Action<V>, slot: Id)
    requires Sound(m) && Allowed(m, a) && Consistent(m, Do(m, a)) && Reserved(m, slot) && slot !in m.cells
    ensures ContentOf(Do(m, a), slot) == ContentOf(m, slot) && slot !in Do(m, a).cells
    ensures StrongOrNull(m.rc, slot) ==> StrongOrNull(Do(m, a).rc, slot)
  {
    hide Inv;
    hide WellFormed;
    hide Perform;
    hide Enabled;
    assert a.RcuCas? ==> CallOk(m, a.call);
    OtherContents(m, a, slot);
  }

  lemma LoadedSlot<V>(m: Memory<V>, a: Action<V>)
    requires Sound(m) && Allowed(m, a) && a.RcuLoad?
    ensures StrongOrNull(Do(m, a).rc, a.dst)
  {
    hide Inv;
    hide Apply;
  }

  lemma CallKept<V>(m: Memory<V>, a: Action<V>, i: Id)
    requires Sound(m) && Allowed(m, a) && i in CallsAfter(m, a) && Consistent(m, Do(m, a))
    ensures CallOk(Do(m, a), i)
  {
    hide Inv;
    hide WellFormed;
    hide Perform;
    hide Enabled;
    if i in m.calls {
      assert CallOk(m, i);
      if !m.calls[i].Loading? {
        PendingSlotKept(m, a, m.calls[i].old_);
      }
      if m.calls[i].Ready? {
        PendingSlotKept(m, a, m.calls[i].new_);
      }
      if a.RcuLoad? && a.call == i {
        LoadedSlot(m, a);
      }
      if a.RcuReturn? && a.call == i {
        OtherContents(m, a, a.new_);
      }
    }
  }

  lemma ActionKeepsSound<V>(m: Memory<V>, a: Action<V>)
    requires Sound(m) && Allowed(m, a)
    ensures Sound(Do(m, a))
  {
    CountsKept(m, a);
    forall c | c in Do(m, a).cells
      ensures CellOk(Do(m, a), c)
    {
      CellKept(m, a, c);
    }
    forall i | i in CallsAfter(m, a)
      ensures CallOk(Do(m, a), i)
    {
      CallKept(m, a, i);
    }
  }

  // -------------------------------------------------------------------------------------- runs

  ghost function Start<V>(): Memory<V> { Memory(INITIAL, map[], {}, map[], map[]) }

  /** Any interleaving of actions; soundness excludes nothing, since `Start` has it and every action keeps it. */
  ghost predicate Follows<V(!new)>(m: Memory<V>, after: Memory<V>) {
    Sound(m) && exists a :: Allowed(m, a) && after == Do(m, a)
  }

  ghost predicate IsHistory<V(!new)>(run: seq<Memory<V>>) {
    |run| > 0 && run[0] == Start<V>() && forall i :: 0 < i < |run| ==> Follows(run[i - 1], run[i])
  }

  ghost predicate Arises<V(!new)>(m: Memory<V>) {
    exists run :: IsHistory(run) && run[|run| - 1] == m
  }

  lemma FollowingSound<V(!new)>(m: Memory<V>, after: Memory<V>)
    requires Follows(m, after)
    ensures Sound(after)
  {
    var a :| Allowed(m, a) && after == Do(m, a);
    ActionKeepsSound(m, a);
  }

  lemma {:induction false} HistoryKeepsSound<V(!new)>(run: seq<Memory<V>>)
    requires IsHistory(run)
    ensures Sound(run[|run| - 1])
  {
    var n := |run| - 1;
    if n == 0 {
      InitInv();
    } else {
      HistoryKeepsSound(run[..n]);
      FollowingSound(run[n - 1], run[n]);
    }
  }

  lemma AriseSound<V(!new)>(m: Memory<V>)
    requires Arises(m)
    ensures Sound(m)
  {
    var run :| IsHistory(run) && run[|run| - 1] == m;
    HistoryKeepsSound(run);
  }

  /** `rcu` loses no update: at any point of any run, the content of a cell is what the writes to it
      give when replayed one after the other from null. */
  lemma RcuLosesNoUpdate<V(!new)>(m: Memory<V>, c: Id)
    requires Arises(m) && c in m.cells
    ensures WellFormed(m.rc) && m.values.Keys == m.rc.blocks.Keys
    ensures c in m.log && ContentOf(m, c) == Replay(m.log[c])
  {
    AriseSound(m);
    assert CellOk(m, c);
  }

  /** The replayed history is the right one: a step appends at most one entry to one cell; an `rcu`
      call ends exactly when its own function is appended, and `swap` appends what it stores. */
  lemma LogRecordsWrites<V(!new)>(m: Memory<V>, a: Action<V>, c: Id)
    requires Arises(m) && Sound(m) && Allowed(m, a) && c in m.cells && c in Do(m, a).cells
    ensures c in m.log && c in Do(m, a).log
    ensures var before, after := m.log[c], Do(m, a).log[c];
            || (after == before && !(a.SwapCopy? && a.cell == c) && !(a.SwapMove? && a.cell == c))
            || ((a.SwapCopy? || a.SwapMove?) && a.cell == c && after == before + [Stored(ContentOf(m, a.src))])
            || (a.RcuCas? && after == before + [Updated(m.calls[a.call].f)] && m.calls[a.call].cell == c
                && a.call !in Do(m, a).calls)
    ensures a.RcuCas? && m.calls[a.call].cell == c && a.call !in Do(m, a).calls ==>
              Do(m, a).log[c] == m.log[c] + [Updated(m.calls[a.call].f)]
    ensures forall i :: i in m.calls && !(a.RcuCas? && a.call == i) ==> i in Do(m, a).calls
  {
    hide Inv;
    hide Perform;
    assert CellOk(m, c);
    assert a.RcuCas? ==> CallOk(m, a.call);
  }

  /** The pointer `rcu` returns is the one it put into the cell, computed from the content it replaced. */
  lemma RcuReplacesWhatItRead<V(!new)>(m: Memory<V>, a: Action<V>)
    requires Arises(m) && Sound(m) && a.RcuCas? && Allowed(m, a) && Exchanges(m, a)
    ensures Consistent(m, Do(m, a))
    ensures ContentOf(Do(m, a), m.calls[a.call].cell) == m.calls[a.call].f(ContentOf(m, m.calls[a.call].cell))
    ensures ContentOf(Do(m, a), m.calls[a.call].cell) == ContentOf(m, m.calls[a.call].new_)
  {
    CountsKept(m, a);
    SwappedContent(m, Do(m, a), OpOf(m, a));
    NoAba(m, a);
    assert CallOk(m, a.call);
  }

  ghost function CellsHolding<V>(m: Memory<V>, b: Id): set<Id> {
    set c | c in m.cells && c in m.rc.handles && m.rc.handles[c].block == b
  }

  ghost function ClientsHolding<V>(m: Memory<V>, b: Id): set<Id> {
    set h | h in m.rc.handles && m.rc.handles[h].Strong? && m.rc.handles[h].block == b && h !in m.cells
  }

  lemma HoldersPartition<V(!new)>(m: Memory<V>, b: Id)
    requires forall c :: c in m.cells ==> StrongOrNull(m.rc, c)
    ensures |StrongRefs(m.rc.handles, b)| == |ClientsHolding(m, b)| + |CellsHolding(m, b)|
  {
    var all, clients, cells := StrongRefs(m.rc.handles, b), ClientsHolding(m, b), CellsHolding(m, b);
    assert all == clients + cells;
    assert clients !! cells;
  }

  /** Cells conserve ownership: each strong count is the number of live strong pointers (those of
      pending `rcu` calls included) plus the number of cells holding the block. */
  lemma OwnershipConserved<V(!new)>(m: Memory<V>, b: Id)
    requires Arises(m) && b in m.rc.blocks
    ensures m.rc.blocks[b].strong == |ClientsHolding(m, b)| + |CellsHolding(m, b)|
  {
    hide StrongRefs;
    hide ClientsHolding;
    hide CellsHolding;
    AriseSound(m);
    assert BlockOk(m.rc, b);
    assert forall c :: c in m.cells ==> CellOk(m, c);
    HoldersPartition(m, b);
  }

  /** An object that a cell holds is alive, whoever releases whatever elsewhere. */
  lemma CellContentAlive<V(!new)>(m: Memory<V>, c: Id)
    requires Arises(m) && c in m.cells && c in m.rc.handles
    ensures var b := m.rc.handles[c].block;
            b in m.rc.blocks && m.rc.blocks[b].data.Live? && m.rc.blocks[b].frees == 0
  {
    AriseSound(m);
    assert CellOk(m, c);
    HandleReferent(m.rc, c);
  }

  // ------------------------------------------------------------------------ counting by `rcu`

  ghost function Length<T>(content: Content<seq<T>>): nat {
    if content.Some? then |content.value| else 0
  }

  /** The function publishes a sequence one longer than the one it was given. */
  ghost predicate Pushes<T(!new)>(u: Update<seq<T>>) {
    u.Updated? && forall x :: u.f(x).Some? && Length(u.f(x)) == Length(x) + 1
  }

  lemma {:induction false} ReplayLength<T(!new)>(log: seq<Update<seq<T>>>)
    requires forall u :: u in log ==> Pushes(u)
    ensures Length(Replay(log)) == |log|
  {
    if log != [] {
      var init := log[..|log| - 1];
      assert Pushes(log[|log| - 1]);
      ReplayLength(init);
    }
  }
}
