/** What each operation of `SharedPtr` and `WeakPtr` does, seen by its caller, from any state that the
    protocol can be in and carried to its end: which pointers there are afterwards, where they lead, and
    what has happened to the object. */
module RefCountOps {
  import opened Wrappers
  import opened RefCount

  /** Only block `b` has changed, into `k`. */
  ghost predicate OnlyBlock(s: State, after: State, b: Id, k: Block) {
    && after.blocks.Keys == s.blocks.Keys && b in s.blocks && after.blocks[b] == k
    && forall c :: c in s.blocks && c != b ==> after.blocks[c] == s.blocks[c]
  }

  /** The step can be taken, and leads to `after`. */
  ghost predicate Goes(s: State, step: Step, after: State) {
    WellFormed(s) && Enabled(s, step) && after == Apply(s, step)
  }

  /** The block that the pointer in slot `h` leads to. */
  ghost function Referent(s: State, h: Id): (k: Block)
    requires WellFormed(s) && h in s.handles
  {
    s.blocks[s.handles[h].block]
  }

  lemma Taken(s: State, step: Step) returns (after: State)
    requires Inv(s) && Enabled(s, step)
    ensures WellFormed(s) && Goes(s, step, after) && Inv(after)
    ensures after.handles == HandlesAfter(s, step) && after.tasks == TasksAfter(s, step)
    ensures var b, k := Target(s, step), BlockAfter(s, step);
            after.blocks == s.blocks[b := k] && (b in s.blocks ==> OnlyBlock(s, after, b, k))
  {
    assert WellFormed(s);
    hide Inv;
    hide Enabled;
    hide WellFormed;
    hide Target;
    hide BlockAfter;
    hide HandlesAfter;
    hide TasksAfter;
    StepKeepsInv(s, step);
    after := Apply(s, step);
  }

  lemma TaskHistory(tasks: map<Id, Task>, t: Id, b: Id)
    requires t !in tasks
    ensures tasks[t := Dtor(b)][t := DropImplicit(b)] - {t} == tasks
    ensures tasks[t := Dtor(b)][t := DropImplicit(b)][t := Free(b)] == tasks[t := Free(b)]
  {
  }

  lemma SameBlock(blocks: map<Id, Block>, b: Id)
    requires b in blocks
    ensures blocks[b := blocks[b]] == blocks
  {
  }

  lemma InvParts(s: State, h: Id)
    requires Inv(s) && h in s.handles
    ensures WellFormed(s) && s.handles[h].block in s.blocks
  {
  }

  lemma SlotMoved(m: map<Id, Handle>, src: Id, dst: Id, x: Handle)
    requires src in m && dst !in m
    ensures src !in (m - {src})[dst := x] && (m - {src})[dst := x] - {dst} == m - {src}
  {
  }

  /** A continuation that came and went. */
  lemma CameAndWent(tasks: map<Id, Task>, t: Id, x: Task)
    requires t !in tasks
    ensures tasks[t := x] - {t} == tasks
  {
  }

  lemma LastOwner(s: State, h: Id)
    requires Inv(s) && h in s.handles && s.handles[h].Strong? && s.blocks[s.handles[h].block].strong == 1
    ensures var k := s.blocks[s.handles[h].block]; k.weak >= 1 && k.dtors == 0 && k.frees == 0 && k.data.Live?
  {
    assert BlockOk(s, s.handles[h].block);
    HandleReferent(s, h);
  }

  lemma LastWeak(s: State, w: Id)
    requires Inv(s) && w in s.handles && s.handles[w].Weak? && s.blocks[s.handles[w].block].weak == 1
    ensures var k := s.blocks[s.handles[w].block]; k.data.Dead? && k.frees == 0
  {
    assert BlockOk(s, s.handles[w].block);
    HandleRemoved(s.handles, w, s.handles[w].block);
    HandleReferent(s, w);
  }

  // ------------------------------------------------------------------------------ single steps

  /** `makeShared`: one pointer to a new, live object that nobody else refers to. */
  lemma Makes(s: State, b: Id, addr: nat, dst: Id) returns (after: State)
    requires Inv(s) && b !in s.blocks && dst !in s.handles && addr != 0
    requires forall c :: c in s.blocks && s.blocks[c].frees == 0 ==> s.blocks[c].addr != addr
    ensures Goes(s, Make(b, addr, dst), after) && Inv(after)
    ensures after.handles == s.handles[dst := Strong(b, None)] && after.tasks == s.tasks
    ensures after.blocks == s.blocks[b := Block(addr, 1, 1, Live, 0, 0)]
  {
    assert WellFormed(s);
    assert Enabled(s, Make(b, addr, dst));
    hide Inv;
    hide WellFormed;
    hide Enabled;
    after := Taken(s, Make(b, addr, dst));
    hide Goes;
  }

  /** Copying a strong pointer: a second one to the same object, counted once more. */
  lemma Copies(s: State, src: Id, dst: Id, home: Option<Id>) returns (after: State)
    requires Inv(s) && src in s.handles && s.handles[src].Strong? && dst !in s.handles && CanHold(s, home)
    ensures Goes(s, CopyStrong(src, dst, home), after) && Inv(after)
    ensures after.handles == s.handles[dst := Strong(s.handles[src].block, home)] && after.tasks == s.tasks
    ensures var k := Referent(s, src); OnlyBlock(s, after, s.handles[src].block, k.(strong := k.strong + 1))
  {
    assert WellFormed(s);
    assert Enabled(s, CopyStrong(src, dst, home));
    assert s.handles[src].block in s.blocks;
    hide Inv;
    hide WellFormed;
    hide Enabled;
    after := Taken(s, CopyStrong(src, dst, home));
    hide Goes;
    hide OnlyBlock;
  }

  /** A weak pointer made from a strong or a weak one leads to the same block, counted once more. */
  lemma MakesWeak(s: State, src: Id, dst: Id, home: Option<Id>) returns (after: State)
    requires Inv(s) && src in s.handles && dst !in s.handles && CanHold(s, home)
    ensures Goes(s, MakeWeak(src, dst, home), after) && Inv(after)
    ensures after.handles == s.handles[dst := Weak(s.handles[src].block, home)] && after.tasks == s.tasks
    ensures var k := Referent(s, src); OnlyBlock(s, after, s.handles[src].block, k.(weak := k.weak + 1))
  {
    assert WellFormed(s);
    assert Enabled(s, MakeWeak(src, dst, home));
    assert s.handles[src].block in s.blocks;
    hide Inv;
    hide WellFormed;
    hide Enabled;
    after := Taken(s, MakeWeak(src, dst, home));
    hide Goes;
    hide OnlyBlock;
  }

  /** Moving a pointer leaves the source null and counts nothing. */
  lemma Moves(s: State, src: Id, dst: Id, home: Option<Id>) returns (after: State)
    requires Inv(s) && src in s.handles && dst !in s.handles && CanHold(s, home) && !Pinned(s, src)
    ensures Goes(s, Move(src, dst, home), after) && Inv(after)
    ensures after.blocks == s.blocks && after.tasks == s.tasks
    ensures src !in after.handles && dst in after.handles && after.handles[dst] == s.handles[src].(home := home)
    ensures after.handles - {dst} == s.handles - {src}
  {
    hide Inv;
    hide WellFormed;
    InvParts(s, src);
    SlotMoved(s.handles, src, dst, s.handles[src].(home := home));
    after := Taken(s, Move(src, dst, home));
    hide Goes;
    hide OnlyBlock;
    hide Enabled;
    SameBlock(s.blocks, s.handles[src].block);
  }

  /** Releasing a strong pointer while there are others. */
  lemma ReleasesOne(s: State, h: Id, t: Id) returns (after: State)
    requires Inv(s) && h in s.handles && s.handles[h].Strong? && t !in s.tasks && Referent(s, h).strong > 1
    ensures Goes(s, ReleaseStrong(h, t), after) && Inv(after)
    ensures after.handles == s.handles - {h} && after.tasks == s.tasks
    ensures var k := Referent(s, h); OnlyBlock(s, after, s.handles[h].block, k.(strong := k.strong - 1))
  {
    assert WellFormed(s);
    assert Enabled(s, ReleaseStrong(h, t));
    assert s.handles[h].block in s.blocks;
    hide Inv;
    hide WellFormed;
    hide Enabled;
    after := Taken(s, ReleaseStrong(h, t));
    hide Goes;
    hide OnlyBlock;
  }

  /** Releasing the last one starts the destructor. */
  lemma ReleasesLast(s: State, h: Id, t: Id) returns (after: State)
    requires Inv(s) && h in s.handles && s.handles[h].Strong? && t !in s.tasks && Referent(s, h).strong == 1
    ensures Goes(s, ReleaseStrong(h, t), after) && Inv(after)
    ensures after.handles == s.handles - {h} && after.tasks == s.tasks[t := Dtor(s.handles[h].block)]
    ensures var k := Referent(s, h); OnlyBlock(s, after, s.handles[h].block, Block(k.addr, 0, k.weak, Dying, 1, 0))
    ensures Referent(s, h).weak >= 1
  {
    assert WellFormed(s);
    LastOwner(s, h);
    assert Enabled(s, ReleaseStrong(h, t));
    assert s.handles[h].block in s.blocks;
    hide Inv;
    hide WellFormed;
    hide Enabled;
    after := Taken(s, ReleaseStrong(h, t));
    hide Goes;
    hide OnlyBlock;
  }

  /** Releasing a weak pointer while the block is still needed. */
  lemma ReleasesOneWeak(s: State, w: Id, t: Id) returns (after: State)
    requires Inv(s) && w in s.handles && s.handles[w].Weak? && t !in s.tasks && !Pinned(s, w) && Referent(s, w).weak > 1
    ensures Goes(s, ReleaseWeak(w, t), after) && Inv(after)
    ensures after.handles == s.handles - {w} && after.tasks == s.tasks
    ensures var k := Referent(s, w); OnlyBlock(s, after, s.handles[w].block, k.(weak := k.weak - 1))
  {
    assert WellFormed(s);
    assert Enabled(s, ReleaseWeak(w, t));
    assert s.handles[w].block in s.blocks;
    hide Inv;
    hide WellFormed;
    hide Enabled;
    after := Taken(s, ReleaseWeak(w, t));
    hide Goes;
    hide OnlyBlock;
  }

  /** Releasing the last weak reference; the object is gone by then. */
  lemma ReleasesLastWeak(s: State, w: Id, t: Id) returns (after: State)
    requires Inv(s) && w in s.handles && s.handles[w].Weak? && t !in s.tasks && !Pinned(s, w)
    requires Referent(s, w).weak == 1
    ensures Goes(s, ReleaseWeak(w, t), after) && Inv(after)
    ensures after.handles == s.handles - {w} && after.tasks == s.tasks[t := Free(s.handles[w].block)]
    ensures var k := Referent(s, w);
            OnlyBlock(s, after, s.handles[w].block, k.(weak := 0)) && k.data.Dead? && k.frees == 0
  {
    assert WellFormed(s);
    LastWeak(s, w);
    assert Enabled(s, ReleaseWeak(w, t));
    assert s.handles[w].block in s.blocks;
    hide Inv;
    hide WellFormed;
    hide Enabled;
    after := Taken(s, ReleaseWeak(w, t));
    hide Goes;
    hide OnlyBlock;
  }

  /** The destructor ends when the members of the object are gone. */
  lemma EndsDtor(s: State, t: Id) returns (after: State)
    requires Inv(s) && t in s.tasks && s.tasks[t].Dtor?
    requires forall h :: h in s.handles ==> s.handles[h].home != Some(s.tasks[t].block)
    ensures Goes(s, EndDtor(t), after) && Inv(after)
    ensures after.handles == s.handles && after.tasks == s.tasks[t := DropImplicit(s.tasks[t].block)]
    ensures OnlyBlock(s, after, s.tasks[t].block, s.blocks[s.tasks[t].block].(data := Dead))
  {
    assert WellFormed(s);
    assert Enabled(s, EndDtor(t));
    assert s.tasks[t].block in s.blocks;
    hide Inv;
    hide WellFormed;
    hide Enabled;
    after := Taken(s, EndDtor(t));
    hide Goes;
    hide OnlyBlock;
  }

  /** Then the thread gives up the implicit weak reference, and deletes the block if that was the last one. */
  lemma GivesUpImplicit(s: State, t: Id) returns (after: State)
    requires Inv(s) && t in s.tasks && s.tasks[t].DropImplicit?
    ensures Goes(s, ReleaseImplicit(t), after) && Inv(after)
    ensures var b := s.tasks[t].block;
            && after.handles == s.handles
            && after.tasks == if s.blocks[b].weak == 1 then s.tasks[t := Free(b)] else s.tasks - {t}
    ensures var k := s.blocks[s.tasks[t].block]; OnlyBlock(s, after, s.tasks[t].block, k.(weak := k.weak - 1))
  {
    assert WellFormed(s);
    assert Enabled(s, ReleaseImplicit(t));
    assert s.tasks[t].block in s.blocks;
    hide Inv;
    hide WellFormed;
    hide Enabled;
    after := Taken(s, ReleaseImplicit(t));
    hide Goes;
    hide OnlyBlock;
  }

  lemma Deletes(s: State, t: Id) returns (after: State)
    requires Inv(s) && t in s.tasks && s.tasks[t].Free?
    ensures Goes(s, Delete(t), after) && Inv(after)
    ensures after.handles == s.handles && after.tasks == s.tasks - {t}
    ensures var k := s.blocks[s.tasks[t].block]; OnlyBlock(s, after, s.tasks[t].block, k.(frees := k.frees + 1))
  {
    assert WellFormed(s);
    assert Enabled(s, Delete(t));
    assert s.tasks[t].block in s.blocks;
    hide Inv;
    hide WellFormed;
    hide Enabled;
    after := Taken(s, Delete(t));
    hide Goes;
    hide OnlyBlock;
  }

  // ------------------------------------------------------------------------------------ upgrade

  /** `upgrade` reads the strong count, which it will compare with, of an object that has an owner. */
  lemma UpgradeReads(s: State, w: Id, t: Id) returns (after: State)
    requires Inv(s) && w in s.handles && s.handles[w].Weak? && t !in s.tasks && Referent(s, w).strong != 0
    ensures Goes(s, UpgradeLoad(w, t), after) && Inv(after)
    ensures after.handles == s.handles && after.blocks == s.blocks
    ensures after.tasks == s.tasks[t := Upgrade(w, Referent(s, w).strong)]
  {
    assert WellFormed(s);
    assert s.blocks[s.handles[w].block := Referent(s, w)] == s.blocks;
    assert Enabled(s, UpgradeLoad(w, t));
    assert s.handles[w].block in s.blocks;
    hide Inv;
    hide WellFormed;
    hide Enabled;
    after := Taken(s, UpgradeLoad(w, t));
    hide Goes;
    hide OnlyBlock;
  }

  /** If there is none left, it returns null at once. */
  lemma UpgradeOfDead(s: State, w: Id, t: Id) returns (after: State)
    requires Inv(s) && w in s.handles && s.handles[w].Weak? && t !in s.tasks && Referent(s, w).strong == 0
    ensures Goes(s, UpgradeLoad(w, t), after) && Inv(after)
    ensures after == s
  {
    assert WellFormed(s);
    assert s.blocks[s.handles[w].block := Referent(s, w)] == s.blocks;
    assert Enabled(s, UpgradeLoad(w, t));
    assert s.handles[w].block in s.blocks;
    hide Inv;
    hide WellFormed;
    hide Enabled;
    after := Taken(s, UpgradeLoad(w, t));
    hide Goes;
    hide OnlyBlock;
  }

  /** A compare-exchange that reads what it expects, and does not fail spuriously, succeeds. */
  lemma UpgradeSucceeds(s: State, t: Id, dst: Id, home: Option<Id>) returns (after: State)
    requires Inv(s) && t in s.tasks && s.tasks[t].Upgrade? && dst !in s.handles && CanHold(s, home)
    requires Referent(s, s.tasks[t].weak).strong == s.tasks[t].expected
    ensures Goes(s, UpgradeCas(t, dst, home, false), after) && Inv(after)
    ensures var b := s.handles[s.tasks[t].weak].block;
            && after.handles == s.handles[dst := Strong(b, home)] && after.tasks == s.tasks - {t}
            && OnlyBlock(s, after, b, s.blocks[b].(strong := s.blocks[b].strong + 1))
  {
    assert WellFormed(s);
    assert Enabled(s, UpgradeCas(t, dst, home, false));
    assert s.handles[s.tasks[t].weak].block in s.blocks;
    hide Inv;
    hide WellFormed;
    hide Enabled;
    after := Taken(s, UpgradeCas(t, dst, home, false));
    hide Goes;
    hide OnlyBlock;
  }

  /** Otherwise it changes no pointer and no count; the thread tries again with what it has read, or gives up
      if that is zero. */
  lemma UpgradeRetries(s: State, t: Id, dst: Id, home: Option<Id>, spurious: bool) returns (after: State)
    requires Inv(s) && t in s.tasks && s.tasks[t].Upgrade? && dst !in s.handles && CanHold(s, home)
    requires spurious || Referent(s, s.tasks[t].weak).strong != s.tasks[t].expected
    ensures Goes(s, UpgradeCas(t, dst, home, spurious), after) && Inv(after)
    ensures after.handles == s.handles && after.blocks == s.blocks
    ensures var w := s.tasks[t].weak; var strong := Referent(s, w).strong;
            after.tasks == if strong == 0 then s.tasks - {t} else s.tasks[t := Upgrade(w, strong)]
  {
    assert WellFormed(s);
    assert s.blocks[s.handles[s.tasks[t].weak].block := Referent(s, s.tasks[t].weak)] == s.blocks;
    assert Enabled(s, UpgradeCas(t, dst, home, spurious));
    assert s.handles[s.tasks[t].weak].block in s.blocks;
    hide Inv;
    hide WellFormed;
    hide Enabled;
    after := Taken(s, UpgradeCas(t, dst, home, spurious));
    hide Goes;
    hide OnlyBlock;
  }

  /** `upgrade` of a weak pointer to a live object, undisturbed, returns a new owner of that object. */
  lemma UpgradeOfLive(s: State, w: Id, t: Id, dst: Id) returns (s1: State, s2: State)
    requires Inv(s) && w in s.handles && s.handles[w].Weak? && t !in s.tasks && dst !in s.handles
    requires Referent(s, w).strong > 0
    ensures Goes(s, UpgradeLoad(w, t), s1) && Goes(s1, UpgradeCas(t, dst, None, false), s2) && Inv(s2)
    ensures s2.handles == s.handles[dst := Strong(s.handles[w].block, None)] && s2.tasks == s.tasks
    ensures var k := Referent(s, w);
            OnlyBlock(s, s2, s.handles[w].block, k.(strong := k.strong + 1)) && k.data.Live?
  {
    assert WellFormed(s) && BlockOk(s, s.handles[w].block);
    hide BlockOk;
    hide Inv;
    hide Goes;
    hide OnlyBlock;
    s1 := UpgradeReads(s, w, t);
    s2 := UpgradeSucceeds(s1, t, dst, None);
    CameAndWent(s.tasks, t, Upgrade(w, Referent(s, w).strong));
    assert OnlyBlock(s1, s2, s.handles[w].block, Referent(s, w).(strong := Referent(s, w).strong + 1));
    SameBlocks(s, s1, s2, s.handles[w].block, Referent(s, w).(strong := Referent(s, w).strong + 1));
  }

  lemma SameBlocks(s: State, s1: State, s2: State, b: Id, k: Block)
    requires s1.blocks == s.blocks && OnlyBlock(s1, s2, b, k)
    ensures OnlyBlock(s, s2, b, k)
  {
  }

  // -------------------------------------------------------------------------------- destruction

  /** The last strong pointer goes: the thread runs the destructor, gives up the implicit weak reference
      and, if that was the last one, deletes the block.  `t` is the thread's continuation; nothing else
      has to happen in between unless the object itself holds pointers. */
  lemma LastOwnerDestroys(s: State, h: Id, t: Id) returns (s1: State, s2: State, s3: State)
    requires Inv(s) && h in s.handles && s.handles[h].Strong? && t !in s.tasks && Referent(s, h).strong == 1
    requires forall x :: x in s.handles && x != h ==> s.handles[x].home != Some(s.handles[h].block)
    ensures Goes(s, ReleaseStrong(h, t), s1) && Goes(s1, EndDtor(t), s2) && Goes(s2, ReleaseImplicit(t), s3)
    ensures Inv(s3) && s3.handles == s.handles - {h}
    ensures var b, k := s.handles[h].block, Referent(s, h);
            && OnlyBlock(s, s3, b, Block(k.addr, 0, k.weak - 1, Dead, 1, 0))
            && s3.tasks == if k.weak == 1 then s.tasks[t := Free(b)] else s.tasks
  {
    hide Inv;
    hide Goes;
    s1 := ReleasesLast(s, h, t);
    s2 := EndsDtor(s1, t);
    s3 := GivesUpImplicit(s2, t);
    TaskHistory(s.tasks, t, s.handles[h].block);
  }

  /** The last weak reference to a block whose object is gone: the memory is given back. */
  lemma LastWeakFrees(s: State, w: Id, t: Id) returns (s1: State, s2: State)
    requires Inv(s) && w in s.handles && s.handles[w].Weak? && t !in s.tasks && !Pinned(s, w)
    requires Referent(s, w).weak == 1
    ensures Goes(s, ReleaseWeak(w, t), s1) && Goes(s1, Delete(t), s2)
    ensures Inv(s2) && s2.handles == s.handles - {w} && s2.tasks == s.tasks
    ensures OnlyBlock(s, s2, s.handles[w].block, Referent(s, w).(weak := 0, frees := 1)) && Referent(s, w).data.Dead?
  {
    hide Inv;
    hide Goes;
    s1 := ReleasesLastWeak(s, w, t);
    s2 := Deletes(s1, t);
    CameAndWent(s.tasks, t, Free(s.handles[w].block));
  }

  /** The block of an object nobody refers to weakly is given back by the thread that released it. */
  lemma FreedAtOnce(s: State, h: Id, t: Id) returns (s1: State, s2: State, s3: State, s4: State)
    requires Inv(s) && h in s.handles && s.handles[h].Strong? && t !in s.tasks
    requires Referent(s, h).strong == 1 && Referent(s, h).weak == 1
    requires forall x :: x in s.handles && x != h ==> s.handles[x].home != Some(s.handles[h].block)
    ensures Goes(s, ReleaseStrong(h, t), s1) && Goes(s1, EndDtor(t), s2)
    ensures Goes(s2, ReleaseImplicit(t), s3) && Goes(s3, Delete(t), s4)
    ensures Inv(s4) && s4.handles == s.handles - {h} && s4.tasks == s.tasks
    ensures OnlyBlock(s, s4, s.handles[h].block, Block(Referent(s, h).addr, 0, 0, Dead, 1, 1))
  {
    hide Inv;
    hide Goes;
    s1, s2, s3 := LastOwnerDestroys(s, h, t);
    s4 := Deletes(s3, t);
    CameAndWent(s.tasks, t, Free(s.handles[h].block));
  }

  /** An object that can hand out pointers to itself holds a weak one: it goes all the same.  The
      destructor releases the member, and the implicit weak reference is then the last one. */
  lemma SelfReferenceGoes(s: State, h: Id, w: Id, t: Id, u: Id)
    returns (s1: State, s2: State, s3: State, s4: State, s5: State)
    requires Inv(s) && h in s.handles && w in s.handles && t !in s.tasks && u !in s.tasks && t != u
    requires s.handles[h].Strong? && s.handles[w] == Weak(s.handles[h].block, Some(s.handles[h].block))
    requires !Pinned(s, w) && Referent(s, h).strong == 1 && Referent(s, h).weak == 2
    requires forall x :: x in s.handles && x != h && x != w ==> s.handles[x].home != Some(s.handles[h].block)
    ensures Goes(s, ReleaseStrong(h, t), s1) && Goes(s1, ReleaseWeak(w, u), s2) && Goes(s2, EndDtor(t), s3)
    ensures Goes(s3, ReleaseImplicit(t), s4) && Goes(s4, Delete(t), s5)
    ensures Inv(s5) && s5.handles == s.handles - {h, w} && s5.tasks == s.tasks
    ensures OnlyBlock(s, s5, s.handles[h].block, Block(Referent(s, h).addr, 0, 0, Dead, 1, 1))
  {
    hide Inv;
    hide Goes;
    s1 := ReleasesLast(s, h, t);
    assert !Pinned(s1, w);
    hide Pinned;
    s2 := ReleasesOneWeak(s1, w, u);
    s3 := EndsDtor(s2, t);
    s4 := GivesUpImplicit(s3, t);
    s5 := Deletes(s4, t);
    assert s5.tasks == s.tasks && s5.handles == s.handles - {h, w};
  }
}
