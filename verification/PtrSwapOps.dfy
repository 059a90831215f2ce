/** What each operation of a `PtrSwap` cell does, seen by its caller: what the cell holds afterwards, what
    is handed out, and how the counts change. */
module PtrSwapOps {
  import opened Wrappers
  import opened RefCount
  import opened PtrSwap

  // ------------------------------------------------------------------------ slots and the counts

  lemma MovesSlot(rc: State, src: Id, dst: Id)
    requires Inv(rc) && StrongOrNull(rc, src) && dst !in rc.handles
    ensures MoveSlot(rc, src, dst) == State(rc.blocks, Moved(rc.handles, src, dst), rc.tasks)
  {
    hide BlockOk;
    hide TaskOk;
    hide AddressesOk;
    if src in rc.handles {
      var b := rc.handles[src].block;
      assert Target(rc, Move(src, dst, None)) == b && rc.blocks[b := rc.blocks[b]] == rc.blocks;
    }
  }

  /** A moving swap only moves pointers between slots. */
  lemma SwapMoves(rc: State, cell: Id, src: Id, out: Id)
    requires Inv(rc) && OpEnabled(rc, Swap(cell, src, out, false))
    ensures Perform(rc, Swap(cell, src, out, false)) ==
            State(rc.blocks, Exchanged(rc.handles, cell, src, out, false), rc.tasks)
  {
    hide Inv;
    hide MoveSlot;
    hide CopySlot;
    hide WellFormed;
    hide Apply;
    MovesSlot(rc, cell, out);
    MovesSlot(MoveSlot(rc, cell, out), src, cell);
  }

  /** The strong count of the block that slot `src` leads to, if it leads to one, is `n` higher. */
  ghost function Counted(blocks: map<Id, Block>, h: Slots, src: Id, n: int): map<Id, Block> {
    if src in h && h[src].block in blocks
    then blocks[h[src].block := blocks[h[src].block].(strong := blocks[h[src].block].strong + n)]
    else blocks
  }

  lemma CopiesSlot(rc: State, src: Id, dst: Id)
    requires Inv(rc) && StrongOrNull(rc, src) && dst !in rc.handles
    ensures CopySlot(rc, src, dst) ==
            State(Counted(rc.blocks, rc.handles, src, 1), Copied(rc.handles, src, dst), rc.tasks)
  {
    hide BlockOk;
    hide TaskOk;
    hide AddressesOk;
  }

  lemma SwapCopies(rc: State, cell: Id, src: Id, out: Id)
    requires Inv(rc) && OpEnabled(rc, Swap(cell, src, out, true))
    ensures Perform(rc, Swap(cell, src, out, true)) ==
            State(Counted(rc.blocks, rc.handles, src, 1), Exchanged(rc.handles, cell, src, out, true), rc.tasks)
  {
    hide Inv;
    hide MoveSlot;
    hide CopySlot;
    hide WellFormed;
    hide Apply;
    MovesSlot(rc, cell, out);
    CopiesSlot(MoveSlot(rc, cell, out), src, cell);
  }

  // ------------------------------------------------------------------------------------ actions

  /** The action can be taken, and leads to `after`. */
  ghost predicate Acts<V>(m: Memory<V>, a: Action<V>, after: Memory<V>) {
    Sound(m) && Allowed(m, a) && after == Do(m, a)
  }

  /** Slots outside `changed` hold what they held. */
  ghost predicate Elsewhere<V>(m: Memory<V>, after: Memory<V>, changed: set<Id>) {
    forall x :: x !in changed ==> SameSlot(after.rc.handles, x, m.rc.handles, x)
  }

  /** Slot `x` now holds what slot `y` held. */
  ghost predicate Received<V>(after: Memory<V>, x: Id, m: Memory<V>, y: Id) {
    SameSlot(after.rc.handles, x, m.rc.handles, y)
  }

  /** No cell, call, history or object has changed. */
  ghost predicate SameRecords<V>(m: Memory<V>, after: Memory<V>) {
    after.values == m.values && after.cells == m.cells && after.calls == m.calls && after.log == m.log
  }

  /** Receiving a pointer means receiving what it leads to. */
  lemma SameContent<V>(m: Memory<V>, after: Memory<V>, x: Id, y: Id)
    requires Sound(m) && Sound(after) && Received(after, x, m, y)
    requires forall b :: b in m.values ==> b in after.values && after.values[b] == m.values[b]
    ensures ContentOf(after, x) == ContentOf(m, y)
  {
    hide Inv;
  }

  lemma Acted<V>(m: Memory<V>, a: Action<V>) returns (after: Memory<V>)
    requires Sound(m) && Allowed(m, a)
    ensures Acts(m, a, after) && Sound(after)
    ensures OpEnabled(m.rc, OpOf(m, a)) && after.rc == Perform(m.rc, OpOf(m, a))
  {
    after := Do(m, a);
    ActionKeepsSound(m, a);
    hide Sound;
    hide Allowed;
    hide OpOf;
  }

  lemma SoundParts<V>(m: Memory<V>)
    requires Sound(m)
    ensures WellFormed(m.rc) && Inv(m.rc) && m.values.Keys == m.rc.blocks.Keys
  {
  }

  lemma CopiedSlots(h: Slots, src: Id, dst: Id)
    requires dst !in h && (src in h ==> h[src].Strong?)
    ensures SameSlot(Copied(h, src, dst), dst, h, src)
    ensures forall x :: x != dst ==> SameSlot(Copied(h, src, dst), x, h, x)
  {
  }

  lemma LoadRuns<V>(m: Memory<V>, cell: Id, dst: Id)
    requires Sound(m) && cell in m.cells && FreshSlot(m, dst)
    ensures Allowed(m, Load(cell, dst)) && OpOf(m, Load(cell, dst)) == Copy(cell, dst)
    ensures SameRecords(m, Do(m, Load(cell, dst)))
  {
    hide Sound;
    hide Perform;
  }

  /** `load` returns a pointer to the object that the cell holds, counted once more; the cell keeps it. */
  lemma Loads<V>(m: Memory<V>, cell: Id, dst: Id) returns (after: Memory<V>)
    requires Sound(m) && cell in m.cells && FreshSlot(m, dst)
    ensures Acts(m, Load(cell, dst), after) && Sound(after) && SameRecords(m, after)
    ensures Received(after, dst, m, cell) && ContentOf(after, dst) == ContentOf(m, cell)
    ensures Elsewhere(m, after, {dst}) && after.rc.tasks == m.rc.tasks
    ensures after.rc.blocks == Counted(m.rc.blocks, m.rc.handles, cell, 1)
  {
    hide Allowed;
    hide Copied;
    hide CopySlot;
    hide Do;
    hide Inv;
    hide OpOf;
    hide Sound;
    hide WellFormed;
    SoundParts(m);
    CellSlot(m, cell);
    LoadRuns(m, cell, dst);
    after := Acted(m, Load(cell, dst));
    CopiesSlot(m.rc, cell, dst);
    CopiedSlots(m.rc.handles, cell, dst);
    SameContent(m, after, dst, cell);
  }

  lemma SwapRuns<V>(m: Memory<V>, cell: Id, src: Id, ret: Id)
    requires Sound(m) && cell in m.cells && src !in m.cells && StrongOrNull(m.rc, src)
    requires FreshSlot(m, ret) && ret != src
    ensures Allowed(m, SwapCopy(cell, src, ret)) && OpOf(m, SwapCopy(cell, src, ret)) == Swap(cell, src, ret, true)
    ensures ClientSlot(m, src) ==>
              Allowed(m, SwapMove(cell, src, ret)) && OpOf(m, SwapMove(cell, src, ret)) == Swap(cell, src, ret, false)
    ensures OpEnabled(m.rc, Swap(cell, src, ret, true)) && OpEnabled(m.rc, Swap(cell, src, ret, false))
  {
    CellSlot(m, cell);
    hide Sound;
    hide Perform;
  }

  /** The records after a swap: only the history of the cell is one entry longer. */
  ghost predicate Recorded<V>(m: Memory<V>, after: Memory<V>, cell: Id, u: Update<V>) {
    && after.values == m.values && after.cells == m.cells
    && cell in m.log && after.log == m.log[cell := m.log[cell] + [u]]
  }

  lemma SwapRecords<V>(m: Memory<V>, a: Action<V>)
    requires Sound(m) && Allowed(m, a) && (a.SwapCopy? || a.SwapMove?)
    ensures WellFormed(m.rc) && Recorded(m, Do(m, a), a.cell, Stored(ContentOf(m, a.src))) && Do(m, a).calls == m.calls
  {
    assert CellOk(m, a.cell);
    hide Inv;
    hide Perform;
    hide OpOf;
    hide CellOk;
    hide CallOk;
  }

  /** The copying `swap` puts a counted copy of the given pointer into the cell and returns the old one. */
  lemma SwapsCopy<V>(m: Memory<V>, cell: Id, src: Id, ret: Id) returns (after: Memory<V>)
    requires Sound(m) && cell in m.cells && src !in m.cells && StrongOrNull(m.rc, src)
    requires FreshSlot(m, ret) && ret != src
    ensures Acts(m, SwapCopy(cell, src, ret), after) && Sound(after) && after.calls == m.calls
    ensures WellFormed(m.rc) && Recorded(m, after, cell, Stored(ContentOf(m, src)))
    ensures Received(after, cell, m, src) && Received(after, ret, m, cell) && Elsewhere(m, after, {cell, ret})
    ensures ContentOf(after, cell) == ContentOf(m, src) && ContentOf(after, ret) == ContentOf(m, cell)
    ensures after.rc.blocks == Counted(m.rc.blocks, m.rc.handles, src, 1) && after.rc.tasks == m.rc.tasks
  {
    hide Allowed;
    hide ContentOf;
    hide Do;
    hide Exchanged;
    hide Inv;
    hide OpOf;
    hide Perform;
    hide Sound;
    hide WellFormed;
    SoundParts(m);
    SwapRuns(m, cell, src, ret);
    SwapRecords(m, SwapCopy(cell, src, ret));
    after := Acted(m, SwapCopy(cell, src, ret));
    SwapCopies(m.rc, cell, src, ret);
    ExchangedSlots(m.rc.handles, cell, src, ret, true);
    SameContent(m, after, cell, src);
    SameContent(m, after, ret, cell);
  }

  /** The moving `swap` empties the given pointer into the cell and returns the old one; no count changes. */
  lemma SwapsMove<V>(m: Memory<V>, cell: Id, src: Id, ret: Id) returns (after: Memory<V>)
    requires Sound(m) && cell in m.cells && ClientSlot(m, src) && StrongOrNull(m.rc, src)
    requires FreshSlot(m, ret) && ret != src
    ensures Acts(m, SwapMove(cell, src, ret), after) && Sound(after) && after.calls == m.calls
    ensures WellFormed(m.rc) && Recorded(m, after, cell, Stored(ContentOf(m, src)))
    ensures Received(after, cell, m, src) && Received(after, ret, m, cell) && src !in after.rc.handles
    ensures Elsewhere(m, after, {cell, ret, src})
    ensures ContentOf(after, cell) == ContentOf(m, src) && ContentOf(after, ret) == ContentOf(m, cell)
    ensures after.rc.blocks == m.rc.blocks && after.rc.tasks == m.rc.tasks
  {
    hide Allowed;
    hide ContentOf;
    hide Do;
    hide Exchanged;
    hide Inv;
    hide OpOf;
    hide Perform;
    hide Sound;
    hide WellFormed;
    SoundParts(m);
    SwapRuns(m, cell, src, ret);
    SwapRecords(m, SwapMove(cell, src, ret));
    after := Acted(m, SwapMove(cell, src, ret));
    SwapMoves(m.rc, cell, src, ret);
    ExchangedSlots(m.rc.handles, cell, src, ret, false);
    SameContent(m, after, cell, src);
    SameContent(m, after, ret, cell);
  }

  // ---------------------------------------------------------------------------- making cells

  /** A new cell is null and has no history. */
  lemma MakesCell<V>(m: Memory<V>, cell: Id) returns (after: Memory<V>)
    requires Sound(m) && FreshSlot(m, cell)
    ensures Acts(m, NewCell(cell), after) && Sound(after)
    ensures after.rc == m.rc && after.values == m.values && after.calls == m.calls
    ensures after.cells == m.cells + {cell} && after.log == m.log[cell := []] && cell !in after.rc.handles
  {
    hide Inv;
    hide CellOk;
    hide CallOk;
    assert OpOf(m, NewCell(cell)) == Nothing;
    after := Acted(m, NewCell(cell));
  }

  /** Destroying a cell releases its pointer: an owner less, or the start of the destructor. */
  lemma DestroysCell<V>(m: Memory<V>, cell: Id, t: Id) returns (after: Memory<V>)
    requires Sound(m) && cell in m.cells && t !in m.rc.tasks && forall i :: i in m.calls ==> m.calls[i].cell != cell
    ensures Acts(m, DestroyCell(cell, t), after) && Sound(after)
    ensures after.values == m.values && after.calls == m.calls && after.log == m.log && after.cells == m.cells - {cell}
    ensures after.rc.handles == m.rc.handles - {cell}
    ensures cell !in m.rc.handles ==> after.rc == m.rc
    ensures cell in m.rc.handles ==>
              var b := m.rc.handles[cell].block;
              && b in m.rc.blocks && b in after.rc.blocks && after.rc.blocks[b].strong == m.rc.blocks[b].strong - 1
              && (m.rc.blocks[b].strong == 1 <==> after.rc.tasks == m.rc.tasks[t := Dtor(b)])
              && (m.rc.blocks[b].strong != 1 ==> after.rc.tasks == m.rc.tasks)
  {
    hide Allowed;
    hide Do;
    hide Inv;
    hide OpOf;
    hide Sound;
    SoundParts(m);
    CellSlot(m, cell);
    DestroyRuns(m, cell, t);
    after := Acted(m, DestroyCell(cell, t));
    assert cell !in m.rc.handles ==> m.rc.handles - {cell} == m.rc.handles;
  }

  lemma DestroyRuns<V>(m: Memory<V>, cell: Id, t: Id)
    requires Sound(m) && cell in m.cells && t !in m.rc.tasks && forall i :: i in m.calls ==> m.calls[i].cell != cell
    ensures var a := DestroyCell(cell, t);
            && Allowed(m, a)
            && OpOf(m, a) == (if cell in m.rc.handles then Primitive(ReleaseStrong(cell, t)) else Nothing)
            && Do(m, a).values == m.values && Do(m, a).calls == m.calls && Do(m, a).log == m.log
            && Do(m, a).cells == m.cells - {cell}
  {
    hide Sound;
    hide Perform;
  }

  // ---------------------------------------------------------------------------------------- rcu

  lemma RcuRuns<V>(m: Memory<V>, call: Id, dst: Id)
    requires Sound(m) && call in m.calls && m.calls[call].Loading? && FreshSlot(m, dst)
    ensures var a, c := RcuLoad(call, dst), m.calls[call];
            && Allowed(m, a) && OpOf(m, a) == Copy(c.cell, dst)
            && Do(m, a) == m.(rc := Do(m, a).rc, calls := m.calls[call := Loaded(c.cell, c.f, dst)])
  {
    hide Sound;
    hide Perform;
  }

  /** `rcu` loads what the cell holds, counted once more, and pins it for the call. */
  lemma RcuLoads<V>(m: Memory<V>, call: Id, dst: Id) returns (after: Memory<V>)
    requires Sound(m) && call in m.calls && m.calls[call].Loading? && FreshSlot(m, dst)
    ensures Acts(m, RcuLoad(call, dst), after) && Sound(after)
    ensures var c := m.calls[call];
            && after == m.(rc := after.rc, calls := m.calls[call := Loaded(c.cell, c.f, dst)])
            && Received(after, dst, m, c.cell) && WellFormed(m.rc) && ContentOf(after, dst) == ContentOf(m, c.cell)
            && after.rc.blocks == Counted(m.rc.blocks, m.rc.handles, c.cell, 1)
    ensures Elsewhere(m, after, {dst}) && after.rc.tasks == m.rc.tasks
  {
    hide Allowed;
    hide ContentOf;
    hide Copied;
    hide CopySlot;
    hide Do;
    hide Inv;
    hide OpOf;
    hide Sound;
    hide WellFormed;
    SoundParts(m);
    CallSlots(m, call);
    RcuRuns(m, call, dst);
    after := Acted(m, RcuLoad(call, dst));
    CopiesSlot(m.rc, m.calls[call].cell, dst);
    CopiedSlots(m.rc.handles, m.calls[call].cell, dst);
    SameContent(m, after, dst, m.calls[call].cell);
  }

  lemma CasRuns<V>(m: Memory<V>, call: Id, moved: Id, spurious: bool)
    requires Sound(m) && call in m.calls && m.calls[call].Ready? && FreshSlot(m, moved)
    ensures Allowed(m, RcuCas(call, moved, spurious))
    ensures m.calls[call].cell in m.cells && OpEnabled(m.rc, Swap(m.calls[call].cell, m.calls[call].new_, moved, true))
    ensures OpOf(m, RcuCas(call, moved, spurious)) ==
              if Exchanges(m, RcuCas(call, moved, spurious))
              then Swap(m.calls[call].cell, m.calls[call].new_, moved, true) else Nothing
  {
    CallSlots(m, call);
    hide Sound;
    hide Exchanges;
    hide Perform;
  }

  lemma CasRecords<V>(m: Memory<V>, call: Id, moved: Id, spurious: bool)
    requires Sound(m) && call in m.calls && m.calls[call].Ready? && FreshSlot(m, moved)
    requires Allowed(m, RcuCas(call, moved, spurious))
    ensures var a, c := RcuCas(call, moved, spurious), m.calls[call];
            if Exchanges(m, a)
            then Recorded(m, Do(m, a), c.cell, Updated(c.f)) && Do(m, a).calls == m.calls - {call}
            else Do(m, a) == m.(rc := Do(m, a).rc, calls := m.calls[call := Loading(c.cell, c.f)])
  {
    hide Sound;
    hide Exchanges;
    hide Perform;
    hide OpOf;
    CallSlots(m, call);
    CellLog(m, m.calls[call].cell);
  }

  lemma CellLog<V>(m: Memory<V>, cell: Id)
    requires Sound(m) && cell in m.cells
    ensures cell in m.log
  {
    assert CellOk(m, cell);
  }

  lemma CasExchanges<V>(m: Memory<V>, call: Id, moved: Id)
    requires Sound(m) && call in m.calls && m.calls[call].Ready? && Allowed(m, RcuCas(call, moved, false))
    requires SameSlot(m.rc.handles, m.calls[call].cell, m.rc.handles, m.calls[call].old_)
    ensures Exchanges(m, RcuCas(call, moved, false))
  {
    SoundParts(m);
    hide Sound;
    hide Inv;
  }

  /** If the cell still holds the pointer that was loaded, the compare-exchange succeeds, unless it fails
      spuriously: the cell holds the new pointer, which is counted once more and which the call returns,
      the old one is handed out to be released, and the call is over. */
  lemma RcuSucceeds<V>(m: Memory<V>, call: Id, moved: Id) returns (after: Memory<V>)
    requires Sound(m) && call in m.calls && m.calls[call].Ready? && FreshSlot(m, moved)
    requires SameSlot(m.rc.handles, m.calls[call].cell, m.rc.handles, m.calls[call].old_)
    ensures Acts(m, RcuCas(call, moved, false), after) && Sound(after)
    ensures var c := m.calls[call];
            && Recorded(m, after, c.cell, Updated(c.f)) && after.calls == m.calls - {call}
            && Received(after, c.cell, m, c.new_) && Received(after, moved, m, c.cell)
            && Elsewhere(m, after, {c.cell, moved}) && after.rc.tasks == m.rc.tasks
            && after.rc.blocks == Counted(m.rc.blocks, m.rc.handles, c.new_, 1)
            && WellFormed(m.rc) && ContentOf(after, c.cell) == ContentOf(m, c.new_)
  {
    hide Allowed;
    hide ContentOf;
    hide Do;
    hide Exchanged;
    hide Exchanges;
    hide Inv;
    hide OpOf;
    hide Perform;
    hide Sound;
    hide WellFormed;
    var c := m.calls[call];
    SoundParts(m);
    CasRuns(m, call, moved, false);
    CasExchanges(m, call, moved);
    CasRecords(m, call, moved, false);
    after := Acted(m, RcuCas(call, moved, false));
    SwapCopies(m.rc, c.cell, c.new_, moved);
    ExchangedSlots(m.rc.handles, c.cell, c.new_, moved, true);
    SameContent(m, after, c.cell, c.new_);
  }

  lemma CasFails<V>(m: Memory<V>, call: Id, moved: Id, spurious: bool)
    requires Sound(m) && call in m.calls && m.calls[call].Ready? && Allowed(m, RcuCas(call, moved, spurious))
    requires spurious || !SameSlot(m.rc.handles, m.calls[call].cell, m.rc.handles, m.calls[call].old_)
    ensures !Exchanges(m, RcuCas(call, moved, spurious))
  {
    if Exchanges(m, RcuCas(call, moved, spurious)) {
      hide Sound;
      hide Allowed;
      NoAba(m, RcuCas(call, moved, spurious));
    }
  }

  /** If the cell holds a pointer to something else, or the compare-exchange fails spuriously, no pointer
      changes and the call starts over. */
  lemma RcuRetries<V>(m: Memory<V>, call: Id, moved: Id, spurious: bool) returns (after: Memory<V>)
    requires Sound(m) && call in m.calls && m.calls[call].Ready? && FreshSlot(m, moved)
    requires spurious || !SameSlot(m.rc.handles, m.calls[call].cell, m.rc.handles, m.calls[call].old_)
    ensures Acts(m, RcuCas(call, moved, spurious), after) && Sound(after)
    ensures var c := m.calls[call];
            after == m.(calls := m.calls[call := Loading(c.cell, c.f)])
  {
    hide Allowed;
    hide Do;
    hide Exchanges;
    hide Inv;
    hide OpOf;
    hide Sound;
    hide WellFormed;
    SoundParts(m);
    CasRuns(m, call, moved, spurious);
    CasFails(m, call, moved, spurious);
    CasRecords(m, call, moved, spurious);
    after := Acted(m, RcuCas(call, moved, spurious));
  }

  /** A call begins by taking note of its cell and its function. */
  lemma RcuStarts<V>(m: Memory<V>, call: Id, cell: Id, f: Content<V> -> Content<V>) returns (after: Memory<V>)
    requires Sound(m) && cell in m.cells && call !in m.calls
    ensures Acts(m, RcuStart(call, cell, f), after) && Sound(after)
    ensures after == m.(calls := m.calls[call := Loading(cell, f)])
  {
    hide Inv;
    hide CellOk;
    hide CallOk;
    after := Acted(m, RcuStart(call, cell, f));
  }

  /** The function may have returned any pointer that leads to its value for what was loaded. */
  lemma RcuReturns<V>(m: Memory<V>, call: Id, slot: Id) returns (after: Memory<V>)
    requires Sound(m) && call in m.calls && m.calls[call].Loaded? && ClientSlot(m, slot) && StrongOrNull(m.rc, slot)
    requires WellFormed(m.rc) && m.values.Keys == m.rc.blocks.Keys
    requires ContentOf(m, slot) == m.calls[call].f(ContentOf(m, m.calls[call].old_))
    ensures Acts(m, RcuReturn(call, slot), after) && Sound(after)
    ensures var c := m.calls[call]; after == m.(calls := m.calls[call := Ready(c.cell, c.f, c.old_, slot)])
  {
    hide Inv;
    hide CellOk;
    hide CallOk;
    after := Acted(m, RcuReturn(call, slot));
  }

  /** Any step of the counting protocol on pointers of its own is open to a client, and touches nothing else. */
  lemma ClientSteps<V>(m: Memory<V>, step: Step, v: V) returns (after: Memory<V>)
    requires Sound(m) && Enabled(m.rc, step) && !step.Make? && forall x :: x in Touched(step) ==> ClientSlot(m, x)
    requires step.CopyStrong? || step.MakeWeak? ==> step.src !in m.cells
    ensures Acts(m, Client(step, v), after) && Sound(after) && SameRecords(m, after)
    ensures WellFormed(m.rc) && after.rc == Apply(m.rc, step)
  {
    SoundParts(m);
    hide Sound;
    hide Inv;
    hide Apply;
    hide Enabled;
    after := Acted(m, Client(step, v));
  }

  /** A client makes an object. */
  lemma ClientMakes<V>(m: Memory<V>, b: Id, addr: nat, slot: Id, v: V) returns (after: Memory<V>)
    requires Sound(m) && FreshSlot(m, slot) && b !in m.rc.blocks && addr != 0
    requires forall c :: c in m.rc.blocks && m.rc.blocks[c].frees == 0 ==> m.rc.blocks[c].addr != addr
    ensures Acts(m, Client(Make(b, addr, slot), v), after) && Sound(after)
    ensures after == m.(rc := after.rc, values := m.values[b := v])
    ensures after.rc.handles == m.rc.handles[slot := Strong(b, None)] && b !in m.values
  {
    SoundParts(m);
    hide Sound;
    hide Inv;
    hide BlockAfter;
    after := Acted(m, Client(Make(b, addr, slot), v));
  }

  /** The call has loaded the pointer of its cell into `slot`, and nothing else has happened. */
  ghost predicate Pending<V>(m: Memory<V>, after: Memory<V>, call: Id, cell: Id, f: Content<V> -> Content<V>,
                             slot: Id)
  {
    && after == m.(rc := after.rc, calls := m.calls[call := Loaded(cell, f, slot)])
    && Received(after, slot, m, cell) && Elsewhere(m, after, {slot})
    && after.rc.blocks.Keys == m.rc.blocks.Keys
    && forall c :: c in m.rc.blocks ==>
         after.rc.blocks[c].addr == m.rc.blocks[c].addr && after.rc.blocks[c].frees == m.rc.blocks[c].frees
  }

  lemma StartsAndLoads<V>(m: Memory<V>, call: Id, cell: Id, f: Content<V> -> Content<V>, slot: Id)
    returns (s1: Memory<V>, s2: Memory<V>)
    requires Sound(m) && cell in m.cells && call !in m.calls && FreshSlot(m, slot)
    ensures Acts(m, RcuStart(call, cell, f), s1) && Acts(s1, RcuLoad(call, slot), s2) && Sound(s2)
    ensures Pending(m, s2, call, cell, f, slot) && WellFormed(m.rc) && ContentOf(s2, slot) == ContentOf(m, cell)
  {
    hide Sound;
    hide Inv;
    hide Acts;
    hide ContentOf;
    s1 := RcuStarts(m, call, cell, f);
    assert forall x :: Reserved(s1, x) ==> Reserved(m, x);
    s2 := RcuLoads(s1, call, slot);
    hide Reserved;
    SoundParts(m);
    assert ContentOf(s1, cell) == ContentOf(m, cell) by {
      SameRefs(m, s1, cell);
    }
  }

  lemma SameRefs<V>(m: Memory<V>, after: Memory<V>, x: Id)
    requires WellFormed(m.rc) && m.values.Keys == m.rc.blocks.Keys && after.rc == m.rc && after.values == m.values
    ensures ContentOf(after, x) == ContentOf(m, x)
  {
  }

  lemma PendingFresh<V>(m: Memory<V>, after: Memory<V>, call: Id, cell: Id, f: Content<V> -> Content<V>,
                        slot: Id, x: Id)
    requires Pending(m, after, call, cell, f, slot) && call !in m.calls && FreshSlot(m, x) && x != slot
    ensures FreshSlot(after, x)
  {
    assert Reserved(after, x) ==> Reserved(m, x);
    assert SameSlot(after.rc.handles, x, m.rc.handles, x);
  }

  /** Object `made` has been created for the call, and nothing else has happened. */
  ghost predicate Made<V>(s2: Memory<V>, s3: Memory<V>, made: Id) {
    && s3.cells == s2.cells && s3.calls == s2.calls && s3.log == s2.log
    && made in s3.rc.handles && s3.rc.handles[made].Strong?
    && forall x :: x != made ==> SameSlot(s3.rc.handles, x, s2.rc.handles, x)
  }

  lemma ClientMade<V>(s2: Memory<V>, s3: Memory<V>, made: Id, b: Id, v: V)
    requires s3 == s2.(rc := s3.rc, values := s2.values[b := v])
    requires s3.rc.handles == s2.rc.handles[made := Strong(b, None)]
    ensures Made(s2, s3, made)
  {
  }

  lemma MadeFresh<V>(s2: Memory<V>, s3: Memory<V>, made: Id, moved: Id)
    requires Made(s2, s3, made) && FreshSlot(s2, made) && FreshSlot(s2, moved) && moved != made
    ensures ClientSlot(s3, made) && FreshSlot(s3, moved) && StrongOrNull(s3.rc, made)
  {
    assert Reserved(s3, made) ==> Reserved(s2, made);
    assert Reserved(s3, moved) ==> Reserved(s2, moved);
    assert SameSlot(s3.rc.handles, moved, s2.rc.handles, moved);
  }

  lemma ReadyFresh<V>(s3: Memory<V>, s4: Memory<V>, call: Id, made: Id, moved: Id)
    requires call in s3.calls && s3.calls[call].Loaded? && FreshSlot(s3, moved) && moved != made
    requires var c := s3.calls[call]; s4 == s3.(calls := s3.calls[call := Ready(c.cell, c.f, c.old_, made)])
    ensures FreshSlot(s4, moved)
  {
    assert Reserved(s4, moved) ==> Reserved(s3, moved);
  }

  lemma StillThere<V>(m: Memory<V>, s2: Memory<V>, s3: Memory<V>, call: Id, cell: Id, f: Content<V> -> Content<V>,
                      slot: Id, made: Id)
    requires Pending(m, s2, call, cell, f, slot) && Made(s2, s3, made) && cell != slot && cell != made && slot != made
    ensures SameSlot(s3.rc.handles, cell, s3.rc.handles, slot) && call in s3.calls
    ensures s3.calls[call] == Loaded(cell, f, slot) && s3.calls - {call} == m.calls - {call}
  {
    assert SameSlot(s2.rc.handles, cell, m.rc.handles, cell);
    assert SameSlot(s3.rc.handles, cell, s2.rc.handles, cell) && SameSlot(s3.rc.handles, slot, s2.rc.handles, slot);
  }

  /** The function returns what it made, and the exchange succeeds. */
  lemma ReturnsAndSwaps<V>(s3: Memory<V>, call: Id, made: Id, moved: Id) returns (s4: Memory<V>, s5: Memory<V>)
    requires Sound(s3) && call in s3.calls && s3.calls[call].Loaded?
    requires ClientSlot(s3, made) && StrongOrNull(s3.rc, made) && FreshSlot(s3, moved)
    requires moved != made && made != s3.calls[call].cell
    requires SameSlot(s3.rc.handles, s3.calls[call].cell, s3.rc.handles, s3.calls[call].old_)
    requires WellFormed(s3.rc) && s3.values.Keys == s3.rc.blocks.Keys
    requires ContentOf(s3, made) == s3.calls[call].f(ContentOf(s3, s3.calls[call].old_))
    ensures Acts(s3, RcuReturn(call, made), s4) && Acts(s4, RcuCas(call, moved, false), s5) && Sound(s5)
    ensures s5.calls == s3.calls - {call} && s5.values == s3.values
    ensures var cell := s3.calls[call].cell;
            Received(s5, cell, s3, made) && Received(s5, moved, s3, cell) && Received(s5, made, s3, made)
  {
    hide Sound;
    hide Inv;
    hide Acts;
    hide ContentOf;
    hide WellFormed;
    hide ClientSlot;
    hide FreshSlot;
    s4 := RcuReturns(s3, call, made);
    ReadyFresh(s3, s4, call, made, moved);
    s5 := RcuSucceeds(s4, call, moved);
    assert Received(s5, made, s4, made);
  }

  /** `rcu` makes progress: a call that nobody disturbs ends after one round.  The cell then holds the new
      object, with the function's value for what the cell held before. */
  lemma RcuAlone<V>(m: Memory<V>, call: Id, cell: Id, f: Content<V> -> Content<V>, b: Id, addr: nat,
                    slot: Id, made: Id, moved: Id)
    returns (s: seq<Memory<V>>)
    requires Sound(m) && cell in m.cells && call !in m.calls && b !in m.rc.blocks && addr != 0
    requires FreshSlot(m, slot) && FreshSlot(m, made) && FreshSlot(m, moved)
    requires slot != made && made != moved && slot != moved
    requires forall c :: c in m.rc.blocks && m.rc.blocks[c].frees == 0 ==> m.rc.blocks[c].addr != addr
    requires WellFormed(m.rc) && m.values.Keys == m.rc.blocks.Keys && f(ContentOf(m, cell)).Some?
    ensures |s| == 6 && s[0] == m && Sound(s[5])
    ensures Acts(s[0], RcuStart(call, cell, f), s[1]) && Acts(s[1], RcuLoad(call, slot), s[2])
    ensures Acts(s[2], Client(Make(b, addr, made), f(ContentOf(m, cell)).value), s[3])
    ensures Acts(s[3], RcuReturn(call, made), s[4]) && Acts(s[4], RcuCas(call, moved, false), s[5])
    ensures s[5].calls == m.calls && WellFormed(s[5].rc) && s[5].values.Keys == s[5].rc.blocks.Keys
    ensures ContentOf(s[5], cell) == f(ContentOf(m, cell)) && ContentOf(s[5], made) == f(ContentOf(m, cell))
    ensures ContentOf(s[5], moved) == ContentOf(m, cell)
  {
    hide *;
    var v := f(ContentOf(m, cell)).value;
    var s1, s2 := StartsAndLoads(m, call, cell, f, slot);
    PendingFresh(m, s2, call, cell, f, slot, made);
    PendingFresh(m, s2, call, cell, f, slot, moved);
    PendingBlocks(m, s2, call, cell, f, slot, b, addr);
    var s3 := ClientMakes(s2, b, addr, made, v);
    SoundParts(s2);
    SoundParts(s3);
    ClientMade(s2, s3, made, b, v);
    MadeFresh(s2, s3, made, moved);
    NotACell(m, cell, slot, made);
    StillThere(m, s2, s3, call, cell, f, slot, made);
    PendingCell(m, s2, call, cell, f, slot);
    MadeContents(m, s2, s3, cell, slot, made, b, v);
    var s4, s5 := ReturnsAndSwaps(s3, call, made, moved);
    SoundParts(s5);
    SameContent(s3, s5, cell, made);
    SameContent(s3, s5, made, made);
    SameContent(s3, s5, moved, cell);
    assert m.calls - {call} == m.calls;
    s := [m, s1, s2, s3, s4, s5];
  }

  lemma PendingBlocks<V>(m: Memory<V>, s2: Memory<V>, call: Id, cell: Id, f: Content<V> -> Content<V>, slot: Id,
                         b: Id, addr: nat)
    requires Pending(m, s2, call, cell, f, slot) && b !in m.rc.blocks
    requires forall c :: c in m.rc.blocks && m.rc.blocks[c].frees == 0 ==> m.rc.blocks[c].addr != addr
    ensures b !in s2.rc.blocks
    ensures forall c :: c in s2.rc.blocks && s2.rc.blocks[c].frees == 0 ==> s2.rc.blocks[c].addr != addr
  {
  }

  lemma PendingCell<V>(m: Memory<V>, s2: Memory<V>, call: Id, cell: Id, f: Content<V> -> Content<V>, slot: Id)
    requires Pending(m, s2, call, cell, f, slot) && cell != slot
    ensures SameSlot(s2.rc.handles, cell, m.rc.handles, cell) && s2.values == m.values
  {
  }

  lemma NotACell<V>(m: Memory<V>, cell: Id, slot: Id, made: Id)
    requires cell in m.cells && FreshSlot(m, slot) && FreshSlot(m, made)
    ensures cell != slot && cell != made
  {
  }

  lemma MadeContents<V>(m: Memory<V>, s2: Memory<V>, s3: Memory<V>, cell: Id, slot: Id, made: Id, b: Id, v: V)
    requires WellFormed(m.rc) && m.values.Keys == m.rc.blocks.Keys
    requires WellFormed(s2.rc) && s2.values.Keys == s2.rc.blocks.Keys && s2.values == m.values
    requires WellFormed(s3.rc) && s3.values.Keys == s3.rc.blocks.Keys
    requires SameSlot(s2.rc.handles, cell, m.rc.handles, cell) && cell != made && slot != made && b !in s2.values
    requires s3.rc.handles == s2.rc.handles[made := Strong(b, None)] && s3.values == s2.values[b := v]
    ensures ContentOf(s3, made) == Some(v) && ContentOf(s3, slot) == ContentOf(s2, slot)
    ensures ContentOf(s3, cell) == ContentOf(m, cell)
  {
  }
}
