/** Where `PtrSwap` leaves the counting protocol: what happens if the increment of a `load` comes later
    than its look at the cell, and if a cell is moved. */
module PtrSwapLimits {
  import opened Wrappers
  import opened RefCount
  import opened PtrSwap
  import opened PtrSwapOps

  /** The increment of a `load` that read a pointer to block `b` from the cell, carried out now: the strong
      count goes up, and slot `dst` holds the pointer from here on. */
  ghost function Retained(rc: State, b: Id, dst: Id): State
    requires b in rc.blocks
  {
    rc.(blocks := rc.blocks[b := rc.blocks[b].(strong := rc.blocks[b].strong + 1)],
        handles := rc.handles[dst := Strong(b, None)])
  }

  /** As long as somebody owns the object, the late increment is a copy made from that owner. */
  lemma RetainIsCopy(rc: State, b: Id, dst: Id) returns (owner: Id)
    requires Inv(rc) && b in rc.blocks && dst !in rc.handles && rc.blocks[b].strong > 0
    ensures Enabled(rc, CopyStrong(owner, dst, None)) && Target(rc, CopyStrong(owner, dst, None)) == b
    ensures Retained(rc, b, dst) == Apply(rc, CopyStrong(owner, dst, None))
  {
    assert BlockOk(rc, b);
    assert StrongRefs(rc.handles, b) != {};
    owner :| owner in StrongRefs(rc.handles, b);
    hide BlockOk;
  }

  lemma RetainBreaks(rc: State, b: Id, dst: Id)
    requires Inv(rc) && b in rc.blocks && rc.blocks[b].strong == 0
    ensures !BlockOk(Retained(rc, b, dst), b) && !rc.blocks[b].data.Live?
  {
    assert BlockOk(rc, b);
  }

  /** The late increment of a `load` is safe exactly when somebody still owns the object at that moment:
      then it touches memory that is there and keeps every guarantee of the protocol; otherwise the new
      pointer leads to an object that is being destroyed or gone. */
  lemma DeferredRetain(rc: State, b: Id, dst: Id)
    requires Inv(rc) && b in rc.blocks && dst !in rc.handles
    ensures Inv(Retained(rc, b, dst)) <==> rc.blocks[b].strong > 0
    ensures rc.blocks[b].strong > 0 ==> rc.blocks[b].frees == 0
    ensures rc.blocks[b].strong == 0 ==> !rc.blocks[b].data.Live?
  {
    if rc.blocks[b].strong > 0 {
      var owner := RetainIsCopy(rc, b, dst);
      StepKeepsInv(rc, CopyStrong(owner, dst, None));
      TargetAllocated(rc, CopyStrong(owner, dst, None));
    } else {
      RetainBreaks(rc, b, dst);
      hide BlockOk;
    }
  }

  // ---------------------------------------------------------------------------- the lost object

  ghost const OWNED := Block(1, 1, 1, Live, 0, 0)

  /** One more action of a run. */
  lemma Extend<V(!new)>(run: seq<Memory<V>>, a: Action<V>) returns (longer: seq<Memory<V>>)
    requires IsHistory(run) && Sound(run[|run| - 1]) && Allowed(run[|run| - 1], a)
    ensures longer == run + [Do(run[|run| - 1], a)] && IsHistory(longer) && Sound(longer[|longer| - 1])
  {
    var m := run[|run| - 1];
    ActionKeepsSound(m, a);
    longer := run + [Do(m, a)];
    assert Follows(m, Do(m, a));
    hide Sound;
    hide Do;
    hide Follows;
  }

  /** A state without calls in progress, with one cell. */
  ghost predicate Quiet<V>(m: Memory<V>, blocks: map<Id, Block>, handles: Slots, tasks: map<Id, Task>) {
    m.rc == State(blocks, handles, tasks) && m.cells == {0} && m.calls == map[]
  }

  lemma QuietStart<V(!new)>(v: V) returns (run: seq<Memory<V>>)
    ensures IsHistory(run) && Sound(run[|run| - 1])
    ensures Quiet(run[|run| - 1], map[0 := OWNED], map[1 := Strong(0, None)], map[])
  {
    run := [Start<V>()];
    InitInv();
    run := Extend(run, NewCell(0));
    var m := run[|run| - 1];
    assert m.rc == INITIAL && m.cells == {0} && m.calls == map[];
    run := Extend(run, Client(Make(0, 1, 1), v));
  }

  lemma QuietSwap<V(!new)>(run: seq<Memory<V>>, blocks: map<Id, Block>, h: Slots, src: Id, out: Id)
    returns (longer: seq<Memory<V>>)
    requires IsHistory(run) && Sound(run[|run| - 1]) && Quiet(run[|run| - 1], blocks, h, map[])
    requires src != 0 && out != 0 && src != out && out !in h && (src in h ==> h[src].Strong?)
    ensures run <= longer && IsHistory(longer) && Sound(longer[|longer| - 1])
    ensures Quiet(longer[|longer| - 1], blocks, Exchanged(h, 0, src, out, false), map[])
  {
    var m := run[|run| - 1];
    assert CellOk(m, 0);
    longer := Extend(run, SwapMove(0, src, out));
    hide CellOk;
    SwapMoves(m.rc, 0, src, out);
  }

  /** The last owner, in slot 4, releases the object to the end. */
  ghost const OWNER := State(map[0 := OWNED], map[4 := Strong(0, None)], map[])
  ghost const DYING := State(map[0 := Block(1, 0, 1, Dying, 1, 0)], map[], map[0 := Dtor(0)])
  ghost const DEAD := State(map[0 := Block(1, 0, 1, Dead, 1, 0)], map[], map[0 := DropImplicit(0)])
  ghost const LAST := State(map[0 := Block(1, 0, 0, Dead, 1, 0)], map[], map[0 := Free(0)])
  ghost const GONE := State(map[0 := Block(1, 0, 0, Dead, 1, 1)], map[], map[])

  ghost predicate StepsTo(rc: State, step: Step, after: State) {
    WellFormed(rc) && Enabled(rc, step) && Apply(rc, step) == after
  }

  lemma OwnerReleases()
    ensures StepsTo(OWNER, ReleaseStrong(4, 0), DYING) && StepsTo(DYING, EndDtor(0), DEAD)
  {
  }

  lemma BlockGoes()
    ensures StepsTo(DEAD, ReleaseImplicit(0), LAST) && StepsTo(LAST, Delete(0), GONE)
  {
  }

  /** Nothing is going on but what the client does. */
  ghost predicate Idle<V>(m: Memory<V>, rc: State) {
    Sound(m) && m.rc == rc && m.cells == {0} && m.calls == map[]
  }

  lemma QuietStep<V(!new)>(run: seq<Memory<V>>, step: Step, after: State, v: V) returns (longer: seq<Memory<V>>)
    requires IsHistory(run) && Idle(run[|run| - 1], run[|run| - 1].rc) && StepsTo(run[|run| - 1].rc, step, after)
    requires 0 !in Touched(step) && !step.Make? && !step.CopyStrong? && !step.MakeWeak?
    ensures run <= longer && IsHistory(longer) && Idle(longer[|longer| - 1], after)
  {
    hide Inv;
    hide Enabled;
    hide Apply;
    hide WellFormed;
    var m := run[|run| - 1];
    assert forall x :: x in Touched(step) ==> ClientSlot(m, x);
    longer := Extend(run, Client(step, v));
  }

  lemma ReleaseAll<V(!new)>(run: seq<Memory<V>>, v: V) returns (longer: seq<Memory<V>>)
    requires IsHistory(run) && Idle(run[|run| - 1], OWNER)
    ensures run <= longer && IsHistory(longer) && Idle(longer[|longer| - 1], GONE)
  {
    hide Idle;
    hide StepsTo;
    assert run[|run| - 1].rc == OWNER by {
      IdleState(run[|run| - 1], OWNER);
    }
    OwnerReleases();
    BlockGoes();
    longer := QuietStep(run, ReleaseStrong(4, 0), DYING, v);
    IdleState(longer[|longer| - 1], DYING);
    longer := QuietStep(longer, EndDtor(0), DEAD, v);
    IdleState(longer[|longer| - 1], DEAD);
    longer := QuietStep(longer, ReleaseImplicit(0), LAST, v);
    IdleState(longer[|longer| - 1], LAST);
    longer := QuietStep(longer, Delete(0), GONE, v);
  }

  lemma IdleState<V(!new)>(m: Memory<V>, rc: State)
    requires Idle(m, rc)
    ensures m.rc == rc
  {
  }

  /** The run in which a pointer that was read from the cell has lost its object before the increment:
      the cell is emptied, and the pointer swapped out is released to the end. */
  lemma ReaderLosesObject<V(!new)>(v: V, dst: Id) returns (run: seq<Memory<V>>, read: nat)
    ensures IsHistory(run) && read < |run|
    ensures var m := run[read]; 0 in m.cells && 0 in m.rc.handles && m.rc.handles[0].block == 0
    ensures var rc := run[|run| - 1].rc;
            Inv(rc) && 0 in rc.blocks && rc.blocks[0].frees == 1 && dst !in rc.handles && !Inv(Retained(rc, 0, dst))
  {
    hide *;
    run := QuietStart(v);
    var blocks := map[0 := OWNED];
    SwappedIn();
    run := QuietSwap(run, blocks, map[1 := Strong(0, None)], 1, 2);
    read := |run| - 1;
    CellHolds(run[read]);
    run := QuietSwap(run, blocks, map[0 := Strong(0, None)], 3, 4);
    OnlyOwner(run[|run| - 1]);
    run := ReleaseAll(run, v);
    GoneIsGone(run[|run| - 1], dst);
  }

  lemma SwappedIn()
    ensures Exchanged(map[1 := Strong(0, None)], 0, 1, 2, false) == map[0 := Strong(0, None)]
    ensures Exchanged(map[0 := Strong(0, None)], 0, 3, 4, false) == map[4 := Strong(0, None)]
  {
  }

  lemma CellHolds<V(!new)>(m: Memory<V>)
    requires Quiet(m, map[0 := OWNED], map[0 := Strong(0, None)], map[])
    ensures 0 in m.cells && 0 in m.rc.handles && m.rc.handles[0].block == 0
  {
  }

  lemma OnlyOwner<V(!new)>(m: Memory<V>)
    requires Sound(m) && Quiet(m, map[0 := OWNED], map[4 := Strong(0, None)], map[])
    ensures Idle(m, OWNER)
  {
    hide Sound;
  }

  lemma GoneIsGone<V(!new)>(m: Memory<V>, dst: Id)
    requires Idle(m, GONE)
    ensures Inv(m.rc) && 0 in m.rc.blocks && m.rc.blocks[0].frees == 1 && dst !in m.rc.handles
    ensures !Inv(Retained(m.rc, 0, dst))
  {
    assert Inv(GONE);
    hide Inv;
    DeferredRetain(GONE, 0, dst);
  }

  // ------------------------------------------------------------------------------- moving a cell

  /** Move construction and move assignment read the pointer of the source cell and write it to the
      other cell; they neither count it nor take it out of the source. */
  ghost function Duplicated(rc: State, src: Id, dst: Id): State {
    if src in rc.handles then rc.(handles := rc.handles[dst := rc.handles[src]]) else rc
  }

  /** Moving a cell keeps the counts exact exactly when the source cell is null. */
  lemma MoveKeepsCounts(rc: State, src: Id, dst: Id)
    requires Inv(rc) && StrongOrNull(rc, src) && dst !in rc.handles
    ensures Inv(Duplicated(rc, src, dst)) <==> src !in rc.handles
    ensures src in rc.handles ==>
              var b := rc.handles[src].block;
              |StrongRefs(Duplicated(rc, src, dst).handles, b)| == rc.blocks[b].strong + 1
  {
    if src in rc.handles {
      var b := rc.handles[src].block;
      assert BlockOk(rc, b);
      HandleAdded(rc.handles, dst, rc.handles[src], b);
      assert !BlockOk(Duplicated(rc, src, dst), b);
    }
  }

  ghost function MoveConstructed<V>(m: Memory<V>, src: Id, dst: Id): Memory<V>
    requires src in m.log
  {
    m.(rc := Duplicated(m.rc, src, dst), cells := m.cells + {dst}, log := m.log[dst := m.log[src]])
  }

  /** A move-constructed cell is sound exactly when the source cell was null. */
  lemma MoveConstructExactly<V(!new)>(m: Memory<V>, src: Id, dst: Id)
    requires Sound(m) && src in m.cells && FreshSlot(m, dst)
    ensures src in m.log && (Sound(MoveConstructed(m, src, dst)) <==> src !in m.rc.handles)
  {
    assert CellOk(m, src);
    MoveKeepsCounts(m.rc, src, dst);
    if src !in m.rc.handles {
      NullMoved(m, src, dst);
    }
  }

  lemma NullMoved<V(!new)>(m: Memory<V>, src: Id, dst: Id)
    requires Sound(m) && src in m.cells && FreshSlot(m, dst) && src in m.log && src !in m.rc.handles
    ensures Sound(MoveConstructed(m, src, dst))
  {
    var after := MoveConstructed(m, src, dst);
    assert after.rc == m.rc;
    assert CellOk(m, src);
    forall c | c in after.cells
      ensures CellOk(after, c)
    {
      assert c != dst ==> CellOk(m, c);
    }
    forall i | i in after.calls
      ensures CallOk(after, i)
    {
      assert CallOk(m, i);
      assert !m.calls[i].Loading? ==> Reserved(m, m.calls[i].old_);
      assert m.calls[i].Ready? ==> Reserved(m, m.calls[i].new_);
    }
  }

  /** Move assignment first releases the pointer of the assigned cell, if it has one. */
  ghost function Dropped(rc: State, dst: Id, t: Id): (r: State)
    requires Inv(rc) && StrongOrNull(rc, dst) && t !in rc.tasks
    ensures Inv(r)
  {
    if dst in rc.handles then Perform(rc, Primitive(ReleaseStrong(dst, t))) else rc
  }

  lemma DroppedSlots(rc: State, dst: Id, t: Id)
    requires Inv(rc) && StrongOrNull(rc, dst) && t !in rc.tasks
    ensures var r := Dropped(rc, dst, t);
            dst !in r.handles && r.blocks.Keys == rc.blocks.Keys && r.handles == rc.handles - {dst}
  {
    hide Inv;
    hide BlockAfter;
    hide TasksAfter;
    assert dst !in rc.handles ==> rc.handles - {dst} == rc.handles;
  }

  ghost function MoveAssigned<V>(m: Memory<V>, src: Id, dst: Id, t: Id): Memory<V>
    requires Inv(m.rc) && StrongOrNull(m.rc, dst) && t !in m.rc.tasks && src in m.log
  {
    m.(rc := Duplicated(Dropped(m.rc, dst, t), src, dst), log := m.log[dst := m.log[src]])
  }

  /** Move assignment between two cells, null or not, leaves everything sound exactly when the source
      cell was null. */
  lemma MoveAssignExactly<V(!new)>(m: Memory<V>, src: Id, dst: Id, t: Id)
    requires Sound(m) && src in m.cells && dst in m.cells && src != dst && t !in m.rc.tasks
    ensures Inv(m.rc) && StrongOrNull(m.rc, dst) && src in m.log
    ensures Sound(MoveAssigned(m, src, dst, t)) <==> src !in m.rc.handles
  {
    assert CellOk(m, src) && CellOk(m, dst);
    DroppedSlots(m.rc, dst, t);
    MoveKeepsCounts(Dropped(m.rc, dst, t), src, dst);
    if src !in m.rc.handles {
      NullAssigned(m, src, dst, t);
    }
    hide CellOk;
    hide CallOk;
    hide Dropped;
    hide Inv;
  }

  /** Cell `dst` has become null like cell `src`, and nothing else has changed for cells and calls. */
  ghost predicate Cleared<V>(m: Memory<V>, after: Memory<V>, src: Id, dst: Id) {
    && WellFormed(after.rc) && after.values.Keys == after.rc.blocks.Keys
    && after.values == m.values && after.cells == m.cells && after.calls == m.calls
    && after.rc.handles == m.rc.handles - {dst}
    && src in m.log && after.log == m.log[dst := m.log[src]]
  }

  lemma ClearedCell<V(!new)>(m: Memory<V>, after: Memory<V>, src: Id, dst: Id, c: Id)
    requires Sound(m) && src in m.cells && src !in m.rc.handles && Cleared(m, after, src, dst) && c in m.cells
    ensures CellOk(after, c)
  {
    hide Inv;
    hide WellFormed;
    hide CallOk;
    assert CellOk(m, c) && CellOk(m, src);
  }

  lemma ClearedCall<V(!new)>(m: Memory<V>, after: Memory<V>, src: Id, dst: Id, i: Id)
    requires Sound(m) && dst in m.cells && Cleared(m, after, src, dst) && i in m.calls
    ensures CallOk(after, i)
  {
    hide Inv;
    hide WellFormed;
    hide CellOk;
    assert CallOk(m, i);
  }

  lemma NullAssigned<V(!new)>(m: Memory<V>, src: Id, dst: Id, t: Id)
    requires Sound(m) && src in m.cells && dst in m.cells && src != dst && t !in m.rc.tasks
    requires StrongOrNull(m.rc, dst) && src in m.log && src !in m.rc.handles
    ensures Sound(MoveAssigned(m, src, dst, t))
  {
    var after := MoveAssigned(m, src, dst, t);
    DroppedSlots(m.rc, dst, t);
    hide Dropped;
    hide CellOk;
    hide CallOk;
    assert after.rc == Dropped(m.rc, dst, t);
    assert Inv(after.rc) && WellFormed(after.rc);
    assert Cleared(m, after, src, dst);
    hide Cleared;
    hide Inv;
    forall c | c in after.cells
      ensures CellOk(after, c)
    {
      ClearedCell(m, after, src, dst, c);
    }
    forall i | i in after.calls
      ensures CallOk(after, i)
    {
      ClearedCall(m, after, src, dst, i);
    }
  }
}
