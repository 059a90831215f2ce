/** The intrusive reference-counting protocol of `SharedPtr` and `WeakPtr`.

    Every atomic operation on a control block is one step, so a run is any interleaving of any
    number of threads.  A pending continuation of some thread (a destructor that is running, the
    release of the implicit weak reference, a deallocation, one iteration of `upgrade`'s CAS loop)
    is a task; leaving the choice of the next task open covers every nesting of destructors.
    A step is guarded only by what the language asks of a client (a handle that is read exists, an
    object is not destroyed while one of its methods runs, a destructor ends after its members are
    gone); counters and phases never guard a step, they are what the invariant is about. */
module RefCount {
  import opened Wrappers

  type Id = nat

  /** The managed object: constructed, destructor running, destructor finished. */
  datatype Phase = Live | Dying | Dead

  /** `dtors` and `frees` count how often the destructor was started and the memory given back. */
  datatype Block = Block(addr: nat, strong: int, weak: int, data: Phase, dtors: nat, frees: nat)

  /** A non-null smart pointer; `home` is the block inside whose object it is stored, if any. */
  datatype Handle =
    | Strong(block: Id, home: Option<Id>)
    | Weak(block: Id, home: Option<Id>)

  datatype Task =
    | Dtor(block: Id)                    // `destroyData` holds the adopted weak, destructor running
    | DropImplicit(block: Id)            // destructor done, adopted weak about to be released
    | Free(block: Id)                    // `destroyBlock` about to delete
    | Upgrade(weak: Id, expected: int)   // in the CAS loop of `upgrade`, last value read

  /** A null smart pointer is a slot that is not in `handles`. */
  datatype State = State(blocks: map<Id, Block>, handles: map<Id, Handle>, tasks: map<Id, Task>)

  datatype Step =
    | Make(b: Id, addr: nat, dst: Id)
    | CopyStrong(src: Id, dst: Id, home: Option<Id>)
    | MakeWeak(src: Id, dst: Id, home: Option<Id>)     // from a strong or from a weak pointer
    | Move(src: Id, dst: Id, home: Option<Id>)
    | ReleaseStrong(h: Id, t: Id)
    | ReleaseWeak(h: Id, t: Id)
    | EndDtor(t: Id)
    | ReleaseImplicit(t: Id)
    | Delete(t: Id)
    | UpgradeLoad(w: Id, t: Id)
    | UpgradeCas(t: Id, dst: Id, home: Option<Id>, spurious: bool)

  const INITIAL := State(map[], map[], map[])

  /** References resolve; without this the effect of a step has no meaning. */
  ghost predicate WellFormed(s: State) {
    && (forall h :: h in s.handles ==> s.handles[h].block in s.blocks)
    && (forall t :: t in s.tasks ==>
          if s.tasks[t].Upgrade?
          then s.tasks[t].weak in s.handles && s.handles[s.tasks[t].weak].Weak?
          else s.tasks[t].block in s.blocks)
  }

  /** Some thread is inside `upgrade` on this weak pointer. */
  ghost predicate Pinned(s: State, h: Id) {
    exists t :: t in s.tasks && s.tasks[t].Upgrade? && s.tasks[t].weak == h
  }

  /** A pointer may be created on its own or inside an object that is not destroyed yet. */
  ghost predicate CanHold(s: State, home: Option<Id>) {
    home.Some? ==> home.value in s.blocks && !s.blocks[home.value].data.Dead?
  }

  ghost predicate Enabled(s: State, step: Step) {
    match step
    case Make(b, addr, dst) =>
      && b !in s.blocks && dst !in s.handles && addr != 0
      && (forall c :: c in s.blocks && s.blocks[c].frees == 0 ==> s.blocks[c].addr != addr)
    case CopyStrong(src, dst, home) =>
      src in s.handles && s.handles[src].Strong? && dst !in s.handles && CanHold(s, home)
    case MakeWeak(src, dst, home) =>
      src in s.handles && dst !in s.handles && CanHold(s, home)
    case Move(src, dst, home) =>
      src in s.handles && dst !in s.handles && CanHold(s, home) && !Pinned(s, src)
    case ReleaseStrong(h, t) =>
      h in s.handles && s.handles[h].Strong? && t !in s.tasks
    case ReleaseWeak(h, t) =>
      h in s.handles && s.handles[h].Weak? && t !in s.tasks && !Pinned(s, h)
    case EndDtor(t) =>
      && t in s.tasks && s.tasks[t].Dtor?
      && (forall h :: h in s.handles ==> s.handles[h].home != Some(s.tasks[t].block))
    case ReleaseImplicit(t) => t in s.tasks && s.tasks[t].DropImplicit?
    case Delete(t) => t in s.tasks && s.tasks[t].Free?
    case UpgradeLoad(w, t) =>
      w in s.handles && s.handles[w].Weak? && t !in s.tasks
    case UpgradeCas(t, dst, home, spurious) =>
      t in s.tasks && s.tasks[t].Upgrade? && dst !in s.handles && CanHold(s, home)
  }

  /** The block whose memory the step reads or writes. */
  ghost function Target(s: State, step: Step): (b: Id)
    requires WellFormed(s) && Enabled(s, step)
  {
    match step
    case Make(b, _, _) => b
    case CopyStrong(src, _, _) => s.handles[src].block
    case MakeWeak(src, _, _) => s.handles[src].block
    case Move(src, _, _) => s.handles[src].block
    case ReleaseStrong(h, _) => s.handles[h].block
    case ReleaseWeak(h, _) => s.handles[h].block
    case EndDtor(t) => s.tasks[t].block
    case ReleaseImplicit(t) => s.tasks[t].block
    case Delete(t) => s.tasks[t].block
    case UpgradeLoad(w, _) => s.handles[w].block
    case UpgradeCas(t, _, _, _) => s.handles[s.tasks[t].weak].block
  }

  /** What the step does to the memory of its target block. */
  ghost function BlockAfter(s: State, step: Step): (k: Block)
    requires WellFormed(s) && Enabled(s, step)
  {
    if step.Make? then Block(step.addr, 1, 1, Live, 0, 0) else
    var k := s.blocks[Target(s, step)];
    match step
    case CopyStrong(_, _, _) => k.(strong := k.strong + 1)
    case MakeWeak(_, _, _) => k.(weak := k.weak + 1)
    case ReleaseStrong(_, _) =>
      var fetched := k.(strong := k.strong - 1);
      if k.strong == 1 then fetched.(data := Dying, dtors := k.dtors + 1) else fetched
    case ReleaseWeak(_, _) => k.(weak := k.weak - 1)
    case ReleaseImplicit(_) => k.(weak := k.weak - 1)
    case EndDtor(_) => k.(data := Dead)
    case Delete(_) => k.(frees := k.frees + 1)
    case UpgradeCas(t, _, _, spurious) =>
      if CasSucceeds(s, step) then k.(strong := s.tasks[t].expected + 1) else k
    case _ => k
  }

  ghost predicate CasSucceeds(s: State, step: Step)
    requires WellFormed(s) && Enabled(s, step) && step.UpgradeCas?
  {
    s.blocks[Target(s, step)].strong == s.tasks[step.t].expected && !step.spurious
  }

  ghost function HandlesAfter(s: State, step: Step): (handles: map<Id, Handle>)
    requires WellFormed(s) && Enabled(s, step)
  {
    match step
    case Make(b, _, dst) => s.handles[dst := Strong(b, None)]
    case CopyStrong(src, dst, home) => s.handles[dst := Strong(s.handles[src].block, home)]
    case MakeWeak(src, dst, home) => s.handles[dst := Weak(s.handles[src].block, home)]
    case Move(src, dst, home) => (s.handles - {src})[dst := s.handles[src].(home := home)]
    case ReleaseStrong(h, _) => s.handles - {h}
    case ReleaseWeak(h, _) => s.handles - {h}
    case UpgradeCas(_, dst, home, _) =>
      if CasSucceeds(s, step) then s.handles[dst := Strong(Target(s, step), home)] else s.handles
    case _ => s.handles
  }

  /** The continuation the acting thread is left with. */
  ghost function TasksAfter(s: State, step: Step): (tasks: map<Id, Task>)
    requires WellFormed(s) && Enabled(s, step)
  {
    if step.Make? then s.tasks else
    var b := Target(s, step);
    var k := s.blocks[b];
    match step
    case ReleaseStrong(_, t) => if k.strong == 1 then s.tasks[t := Dtor(b)] else s.tasks
    case ReleaseWeak(_, t) => if k.weak == 1 then s.tasks[t := Free(b)] else s.tasks
    case EndDtor(t) => s.tasks[t := DropImplicit(b)]
    case ReleaseImplicit(t) => if k.weak == 1 then s.tasks[t := Free(b)] else s.tasks - {t}
    case Delete(t) => s.tasks - {t}
    case UpgradeLoad(w, t) => if k.strong != 0 then s.tasks[t := Upgrade(w, k.strong)] else s.tasks
    case UpgradeCas(t, _, _, _) =>
      if CasSucceeds(s, step) || k.strong == 0
      then s.tasks - {t}
      else s.tasks[t := Upgrade(s.tasks[t].weak, k.strong)]
    case _ => s.tasks
  }

  ghost function Apply(s: State, step: Step): (s': State)
    requires WellFormed(s) && Enabled(s, step)
  {
    State(s.blocks[Target(s, step) := BlockAfter(s, step)], HandlesAfter(s, step), TasksAfter(s, step))
  }

  // ---------------------------------------------------------------------------------- counting

  ghost function StrongRefs(handles: map<Id, Handle>, b: Id): set<Id> {
    set h | h in handles && handles[h].Strong? && handles[h].block == b
  }

  ghost function WeakRefs(handles: map<Id, Handle>, b: Id): set<Id> {
    set h | h in handles && handles[h].Weak? && handles[h].block == b
  }

  /** Tasks that own the implicit weak reference the strong side gave up. */
  ghost function ImplicitRefs(tasks: map<Id, Task>, b: Id): set<Id> {
    set t | t in tasks && (tasks[t] == Dtor(b) || tasks[t] == DropImplicit(b))
  }

  ghost function Deletions(tasks: map<Id, Task>, b: Id): set<Id> {
    set t | t in tasks && tasks[t] == Free(b)
  }

  ghost function One(p: bool): int { if p then 1 else 0 }

  ghost predicate OwnsImplicit(x: Task, b: Id) { x == Dtor(b) || x == DropImplicit(b) }

  lemma HandleAdded(m: map<Id, Handle>, h: Id, x: Handle, b: Id)
    requires h !in m
    ensures |StrongRefs(m[h := x], b)| == |StrongRefs(m, b)| + One(x.Strong? && x.block == b)
    ensures |WeakRefs(m[h := x], b)| == |WeakRefs(m, b)| + One(x.Weak? && x.block == b)
  {
    var strong, weak := StrongRefs(m, b), WeakRefs(m, b);
    if x.block == b && x.Strong? {
      assert StrongRefs(m[h := x], b) == strong + {h};
      assert WeakRefs(m[h := x], b) == weak;
    } else if x.block == b {
      assert StrongRefs(m[h := x], b) == strong;
      assert WeakRefs(m[h := x], b) == weak + {h};
    } else {
      assert StrongRefs(m[h := x], b) == strong;
      assert WeakRefs(m[h := x], b) == weak;
    }
  }

  lemma HandleRemoved(m: map<Id, Handle>, h: Id, b: Id)
    requires h in m
    ensures |StrongRefs(m, b)| == |StrongRefs(m - {h}, b)| + One(m[h].Strong? && m[h].block == b)
    ensures |WeakRefs(m, b)| == |WeakRefs(m - {h}, b)| + One(m[h].Weak? && m[h].block == b)
  {
    HandleAdded(m - {h}, h, m[h], b);
    assert (m - {h})[h := m[h]] == m;
  }

  lemma TaskAdded(m: map<Id, Task>, t: Id, x: Task, b: Id)
    requires t !in m
    ensures |ImplicitRefs(m[t := x], b)| == |ImplicitRefs(m, b)| + One(OwnsImplicit(x, b))
    ensures |Deletions(m[t := x], b)| == |Deletions(m, b)| + One(x == Free(b))
  {
    var implicit, deletions := ImplicitRefs(m, b), Deletions(m, b);
    if OwnsImplicit(x, b) {
      assert ImplicitRefs(m[t := x], b) == implicit + {t};
      assert Deletions(m[t := x], b) == deletions;
    } else if x == Free(b) {
      assert ImplicitRefs(m[t := x], b) == implicit;
      assert Deletions(m[t := x], b) == deletions + {t};
    } else {
      assert ImplicitRefs(m[t := x], b) == implicit;
      assert Deletions(m[t := x], b) == deletions;
    }
  }

  lemma TaskRemoved(m: map<Id, Task>, t: Id, b: Id)
    requires t in m
    ensures |ImplicitRefs(m, b)| == |ImplicitRefs(m - {t}, b)| + One(OwnsImplicit(m[t], b))
    ensures |Deletions(m, b)| == |Deletions(m - {t}, b)| + One(m[t] == Free(b))
  {
    TaskAdded(m - {t}, t, m[t], b);
    assert (m - {t})[t := m[t]] == m;
  }

  lemma TaskReplaced(m: map<Id, Task>, t: Id, x: Task, b: Id)
    requires t in m
    ensures |ImplicitRefs(m[t := x], b)| + One(OwnsImplicit(m[t], b)) == |ImplicitRefs(m, b)| + One(OwnsImplicit(x, b))
    ensures |Deletions(m[t := x], b)| + One(m[t] == Free(b)) == |Deletions(m, b)| + One(x == Free(b))
  {
    TaskRemoved(m, t, b);
    TaskAdded(m - {t}, t, x, b);
    assert (m - {t})[t := x] == m[t := x];
  }

  // --------------------------------------------------------------------------------- invariant

  /** The two counters are exact, and they determine where in its life the block is. */
  ghost predicate BlockOk(s: State, b: Id)
    requires b in s.blocks
  {
    var k := s.blocks[b];
    && k.strong == |StrongRefs(s.handles, b)|
    && k.weak == |WeakRefs(s.handles, b)| + |ImplicitRefs(s.tasks, b)| + (if k.strong > 0 then 1 else 0)
    && (k.strong > 0 ==> k.data.Live? && k.dtors == 0 && |ImplicitRefs(s.tasks, b)| == 0)
    && (k.strong == 0 ==> !k.data.Live? && k.dtors == 1 && |ImplicitRefs(s.tasks, b)| <= 1)
    && (k.data.Dying? ==> |ImplicitRefs(s.tasks, b)| == 1)
    && k.frees + |Deletions(s.tasks, b)| == (if k.weak == 0 then 1 else 0)
  }

  ghost predicate TaskOk(s: State, t: Id)
    requires t in s.tasks && WellFormed(s)
  {
    match s.tasks[t]
    case Dtor(b) => s.blocks[b].data.Dying?
    case DropImplicit(b) => s.blocks[b].data.Dead?
    case Free(b) => true
    case Upgrade(w, expected) => expected > 0
  }

  /** Blocks that are allocated at the same time have different addresses; no block is at the null address. */
  ghost predicate AddressesOk(blocks: map<Id, Block>) {
    && (forall b :: b in blocks ==> blocks[b].addr != 0)
    && (forall b, c :: b in blocks && c in blocks && b != c && blocks[b].frees == 0 && blocks[c].frees == 0
          ==> blocks[b].addr != blocks[c].addr)
  }

  ghost predicate Inv(s: State) {
    && WellFormed(s)
    && (forall b :: b in s.blocks ==> BlockOk(s, b))
    && (forall t :: t in s.tasks ==> TaskOk(s, t))
    && AddressesOk(s.blocks)
    && (forall h :: h in s.handles ==> CanHold(s, s.handles[h].home))
  }

  lemma InitInv()
    ensures Inv(INITIAL)
  {
  }

  /** At most one continuation owns the implicit weak reference of a block. */
  lemma ImplicitUnique(tasks: map<Id, Task>, b: Id, t: Id, u: Id)
    requires |ImplicitRefs(tasks, b)| <= 1 && t in ImplicitRefs(tasks, b) && u in ImplicitRefs(tasks, b)
    ensures t == u
  {
    TaskRemoved(tasks, t, b);
    assert t != u ==> u in ImplicitRefs(tasks - {t}, b);
  }

  lemma MakeKeepsBlock(s: State, step: Step, b: Id)
    requires Inv(s) && Enabled(s, step) && b in Apply(s, step).blocks && step.Make?
    ensures BlockOk(Apply(s, step), b)
  {
    hide TaskOk;
    hide AddressesOk;
    HandleAdded(s.handles, step.dst, Strong(step.b, None), b);
    if b == step.b {
      assert StrongRefs(s.handles, b) == {} && WeakRefs(s.handles, b) == {};
      assert ImplicitRefs(s.tasks, b) == {} && Deletions(s.tasks, b) == {};
    }
  }

  /** The effect of a step on the counters of block `b`, for a step that touches handles. */
  lemma HandleStepKeepsBlock(s: State, step: Step, b: Id)
    requires Inv(s) && Enabled(s, step) && b in Apply(s, step).blocks
    requires step.CopyStrong? || step.MakeWeak? || step.Move?
    ensures BlockOk(Apply(s, step), b)
  {
    hide TaskOk;
    hide AddressesOk;
    hide CanHold;
    hide StrongRefs;
    hide WeakRefs;
    hide ImplicitRefs;
    hide Deletions;
    var x := s.handles[step.src];
    HandleRemoved(s.handles, step.src, b);
    match step
    case CopyStrong(_, dst, home) => HandleAdded(s.handles, dst, Strong(x.block, home), b);
    case MakeWeak(_, dst, home) => HandleAdded(s.handles, dst, Weak(x.block, home), b);
    case Move(src, dst, home) => HandleAdded(s.handles - {src}, dst, x.(home := home), b);
  }

  lemma ReleaseKeepsBlock(s: State, step: Step, b: Id)
    requires Inv(s) && Enabled(s, step) && b in Apply(s, step).blocks
    requires step.ReleaseStrong? || step.ReleaseWeak?
    ensures BlockOk(Apply(s, step), b)
  {
    hide AddressesOk;
    hide CanHold;
    hide StrongRefs;
    hide WeakRefs;
    hide ImplicitRefs;
    hide Deletions;
    var c := s.handles[step.h].block;
    HandleRemoved(s.handles, step.h, b);
    TaskAdded(s.tasks, step.t, if step.ReleaseStrong? then Dtor(c) else Free(c), b);
  }

  lemma TaskStepKeepsBlock(s: State, step: Step, b: Id)
    requires Inv(s) && Enabled(s, step) && b in Apply(s, step).blocks
    requires step.EndDtor? || step.ReleaseImplicit? || step.Delete?
    ensures BlockOk(Apply(s, step), b)
  {
    hide AddressesOk;
    hide CanHold;
    hide StrongRefs;
    hide WeakRefs;
    hide ImplicitRefs;
    hide Deletions;
    var c := s.tasks[step.t].block;
    TaskRemoved(s.tasks, step.t, b);
    TaskReplaced(s.tasks, step.t, if step.EndDtor? then DropImplicit(c) else Free(c), b);
  }

  lemma UpgradeLoadKeepsBlock(s: State, step: Step, b: Id)
    requires Inv(s) && Enabled(s, step) && b in s.blocks && step.UpgradeLoad?
    ensures b in Apply(s, step).blocks && BlockOk(Apply(s, step), b)
  {
    TaskAdded(s.tasks, step.t, Upgrade(step.w, s.blocks[s.handles[step.w].block].strong), b);
  }

  lemma UpgradeCasKeepsBlock(s: State, step: Step, b: Id)
    requires Inv(s) && Enabled(s, step) && b in s.blocks && step.UpgradeCas?
    ensures b in Apply(s, step).blocks && BlockOk(Apply(s, step), b)
  {
    hide AddressesOk;
    hide CanHold;
    hide StrongRefs;
    hide WeakRefs;
    hide ImplicitRefs;
    hide Deletions;
    var w := s.tasks[step.t].weak;
    var c := s.handles[w].block;
    var strong := s.blocks[c].strong;
    TaskRemoved(s.tasks, step.t, b);
    if strong == s.tasks[step.t].expected && !step.spurious {
      HandleAdded(s.handles, step.dst, Strong(c, step.home), b);
    } else if strong != 0 {
      TaskReplaced(s.tasks, step.t, Upgrade(w, strong), b);
    }
  }

  lemma StepKeepsBlocks(s: State, step: Step)
    requires Inv(s) && Enabled(s, step)
    ensures forall b :: b in Apply(s, step).blocks ==> BlockOk(Apply(s, step), b)
  {
    forall b | b in Apply(s, step).blocks
      ensures BlockOk(Apply(s, step), b)
    {
      match step
      case Make(_, _, _) => MakeKeepsBlock(s, step, b);
      case CopyStrong(_, _, _) | MakeWeak(_, _, _) | Move(_, _, _) => HandleStepKeepsBlock(s, step, b);
      case ReleaseStrong(_, _) | ReleaseWeak(_, _) => ReleaseKeepsBlock(s, step, b);
      case EndDtor(_) | ReleaseImplicit(_) | Delete(_) => TaskStepKeepsBlock(s, step, b);
      case UpgradeLoad(_, _) => UpgradeLoadKeepsBlock(s, step, b);
      case UpgradeCas(_, _, _, _) => UpgradeCasKeepsBlock(s, step, b);
    }
  }

  /** No step undoes what happened to a block; in particular `strong` never leaves 0 again. */
  ghost predicate Evolves(before: Block, after: Block) {
    && after.addr == before.addr
    && (before.strong == 0 ==> after.strong == 0)
    && (before.data.Dead? ==> after.data.Dead?)
    && (before.data.Dying? ==> !after.data.Live?)
    && before.dtors <= after.dtors
    && before.frees <= after.frees
  }

  lemma BlockEvolves(s: State, step: Step, b: Id)
    requires Inv(s) && Enabled(s, step) && b in s.blocks
    ensures b in Apply(s, step).blocks && Evolves(s.blocks[b], Apply(s, step).blocks[b])
  {
    var s' := Apply(s, step);
    if step.CopyStrong? || step.ReleaseStrong? {
      HandleRemoved(s.handles, if step.CopyStrong? then step.src else step.h, b);
    }
    assert step.EndDtor? ==> TaskOk(s, step.t);
    assert step.UpgradeCas? ==> TaskOk(s, step.t);
  }

  lemma HandleOrigin(s: State, step: Step, h: Id)
    requires Inv(s) && Enabled(s, step) && h in HandlesAfter(s, step)
    ensures HandlesAfter(s, step)[h].block == Target(s, step)
         || (h in s.handles && HandlesAfter(s, step)[h] == s.handles[h])
  {
  }

  /** A weak pointer that some `upgrade` is using is still there after the step. */
  lemma PinnedStays(s: State, step: Step, w: Id)
    requires Inv(s) && Enabled(s, step) && w in s.handles && s.handles[w].Weak? && Pinned(s, w)
    ensures w in HandlesAfter(s, step) && HandlesAfter(s, step)[w] == s.handles[w]
  {
  }

  lemma StepKeepsTaskReference(s: State, step: Step, t: Id)
    requires Inv(s) && Enabled(s, step) && t in TasksAfter(s, step)
    ensures var x := TasksAfter(s, step)[t];
            if x.Upgrade? then x.weak in HandlesAfter(s, step) && HandlesAfter(s, step)[x.weak].Weak?
            else x.block in s.blocks
  {
    var x := TasksAfter(s, step)[t];
    if x.Upgrade? && t in s.tasks {
      assert Pinned(s, s.tasks[t].weak);
      PinnedStays(s, step, s.tasks[t].weak);
    }
  }

  lemma StepKeepsWellFormed(s: State, step: Step)
    requires Inv(s) && Enabled(s, step)
    ensures WellFormed(Apply(s, step))
  {
    forall h | h in HandlesAfter(s, step)
      ensures HandlesAfter(s, step)[h].block in Apply(s, step).blocks
    {
      HandleOrigin(s, step, h);
    }
    forall t | t in TasksAfter(s, step)
      ensures var x := TasksAfter(s, step)[t];
              if x.Upgrade? then x.weak in HandlesAfter(s, step) && HandlesAfter(s, step)[x.weak].Weak?
              else x.block in s.blocks
    {
      StepKeepsTaskReference(s, step, t);
    }
  }

  /** A task that the step leaves alone still agrees with the phase of its block. */
  lemma OldTaskOk(s: State, step: Step, t: Id)
    requires Inv(s) && Enabled(s, step) && WellFormed(Apply(s, step))
    requires t in s.tasks && t in TasksAfter(s, step) && TasksAfter(s, step)[t] == s.tasks[t]
    requires s.tasks[t].Dtor? || s.tasks[t].DropImplicit?
    ensures TaskOk(Apply(s, step), t)
  {
    var b := s.tasks[t].block;
    assert TaskOk(s, t);
    BlockEvolves(s, step, b);
    if step.EndDtor? && Target(s, step) == b {
      ImplicitUnique(s.tasks, b, step.t, t);
    }
  }

  lemma StepKeepsTask(s: State, step: Step, t: Id)
    requires Inv(s) && Enabled(s, step) && WellFormed(Apply(s, step)) && t in TasksAfter(s, step)
    ensures TaskOk(Apply(s, step), t)
  {
    var x := TasksAfter(s, step)[t];
    if t in s.tasks && s.tasks[t] == x {
      assert TaskOk(s, t);
      if x.Dtor? || x.DropImplicit? {
        OldTaskOk(s, step, t);
      }
    } else if x.Upgrade? {
      assert BlockOk(s, Target(s, step));
    }
  }

  lemma StepKeepsHomes(s: State, step: Step, h: Id)
    requires Inv(s) && Enabled(s, step) && h in Apply(s, step).handles
    ensures CanHold(Apply(s, step), Apply(s, step).handles[h].home)
  {
    hide BlockOk;
    hide TaskOk;
    hide AddressesOk;
    var home := Apply(s, step).handles[h].home;
    assert CanHold(s, home);
    if home.Some? {
      BlockEvolves(s, step, home.value);
      assert step.EndDtor? ==> s.handles[h].home != Some(s.tasks[step.t].block);
    }
  }

  lemma MakeKeepsAddresses(blocks: map<Id, Block>, b: Id, k: Block)
    requires AddressesOk(blocks) && k.addr != 0
    requires forall c :: c in blocks && blocks[c].frees == 0 ==> blocks[c].addr != k.addr
    ensures AddressesOk(blocks[b := k])
  {
  }

  lemma SameAddresses(blocks: map<Id, Block>, after: map<Id, Block>)
    requires AddressesOk(blocks) && after.Keys == blocks.Keys
    requires forall b :: b in blocks ==> after[b].addr == blocks[b].addr && blocks[b].frees <= after[b].frees
    ensures AddressesOk(after)
  {
  }

  lemma StepKeepsAddresses(s: State, step: Step)
    requires Inv(s) && Enabled(s, step)
    ensures AddressesOk(Apply(s, step).blocks)
  {
    var blocks := Apply(s, step).blocks;
    if step.Make? {
      MakeKeepsAddresses(s.blocks, step.b, BlockAfter(s, step));
    } else {
      forall b | b in s.blocks
        ensures b in blocks && blocks[b].addr == s.blocks[b].addr && s.blocks[b].frees <= blocks[b].frees
      {
        BlockEvolves(s, step, b);
      }
      hide AddressesOk;
      hide BlockAfter;
      SameAddresses(s.blocks, blocks);
    }
  }

  /** Every step of every thread keeps the invariant. */
  lemma StepKeepsInv(s: State, step: Step)
    requires Inv(s) && Enabled(s, step)
    ensures Inv(Apply(s, step))
  {
    StepKeepsBlocks(s, step);
    StepKeepsWellFormed(s, step);
    StepKeepsAddresses(s, step);
    forall t | t in Apply(s, step).tasks
      ensures TaskOk(Apply(s, step), t)
    {
      StepKeepsTask(s, step, t);
    }
    forall h | h in Apply(s, step).handles
      ensures CanHold(Apply(s, step), Apply(s, step).handles[h].home)
    {
      StepKeepsHomes(s, step, h);
    }
  }

  // -------------------------------------------------------------------------------------- runs

  ghost predicate Next(s: State, s': State) {
    WellFormed(s) && exists step :: Enabled(s, step) && s' == Apply(s, step)
  }

  /** Any interleaving of the steps of any number of threads. */
  ghost predicate IsRun(run: seq<State>) {
    |run| > 0 && forall i :: 0 < i < |run| ==> Next(run[i - 1], run[i])
  }

  ghost predicate Reachable(s: State) {
    exists run :: IsRun(run) && run[0] == INITIAL && run[|run| - 1] == s
  }

  lemma NextKeepsInv(s: State, s': State)
    requires Inv(s) && Next(s, s')
    ensures Inv(s')
  {
    var step :| Enabled(s, step) && s' == Apply(s, step);
    StepKeepsInv(s, step);
  }

  lemma NextEvolves(s: State, s': State, b: Id)
    requires Inv(s) && Next(s, s') && b in s.blocks
    ensures b in s'.blocks && Evolves(s.blocks[b], s'.blocks[b])
  {
    var step :| Enabled(s, step) && s' == Apply(s, step);
    BlockEvolves(s, step, b);
  }

  lemma {:induction false} RunKeepsInv(run: seq<State>)
    requires IsRun(run) && Inv(run[0])
    ensures Inv(run[|run| - 1])
  {
    var n := |run| - 1;
    if n > 0 {
      RunKeepsInv(run[..n]);
      NextKeepsInv(run[n - 1], run[n]);
    }
  }

  lemma ReachableInv(s: State)
    requires Reachable(s)
    ensures Inv(s)
  {
    var run :| IsRun(run) && run[0] == INITIAL && run[|run| - 1] == s;
    InitInv();
    RunKeepsInv(run);
  }

  /** Both counters are exact at every point of every run: the strong one counts the strong
      pointers, the weak one counts the weak pointers and one more until the thread that ran the
      destructor has given up the implicit weak reference. */
  lemma CountersExact(s: State, b: Id)
    requires Reachable(s) && b in s.blocks
    ensures s.blocks[b].strong == |StrongRefs(s.handles, b)|
    ensures s.blocks[b].weak == |WeakRefs(s.handles, b)|
              + if s.blocks[b].strong > 0 || ImplicitRefs(s.tasks, b) != {} then 1 else 0
  {
    ReachableInv(s);
    assert BlockOk(s, b);
  }

  /** The destructor runs at most once, exactly when no strong pointer is left; the memory is given
      back at most once, after the destructor has finished and no pointer is left. */
  lemma LifeCycle(s: State, b: Id)
    requires Reachable(s) && b in s.blocks
    ensures var k := s.blocks[b];
            && k.dtors <= 1 && (k.dtors == 1 <==> StrongRefs(s.handles, b) == {})
            && (k.data.Live? <==> k.dtors == 0)
            && k.frees <= 1
            && (k.frees == 1 ==> k.data.Dead? && StrongRefs(s.handles, b) == {} && WeakRefs(s.handles, b) == {})
  {
    ReachableInv(s);
    assert BlockOk(s, b);
  }

  lemma HandleReferent(s: State, h: Id)
    requires Inv(s) && h in s.handles
    ensures var x := s.handles[h];
            s.blocks[x.block].frees == 0 && (x.Strong? ==> s.blocks[x.block].data.Live? && s.blocks[x.block].strong > 0)
  {
    var b := s.handles[h].block;
    assert BlockOk(s, b);
    HandleRemoved(s.handles, h, b);
  }

  /** What a pointer refers to is there: the memory is not given back, the object of a strong
      pointer is alive, and a pointer stored inside an object is stored in memory that is there. */
  lemma PointersAreSafe(s: State, h: Id)
    requires Reachable(s) && h in s.handles
    ensures var x := s.handles[h];
            && x.block in s.blocks && s.blocks[x.block].frees == 0
            && (x.Strong? ==> s.blocks[x.block].data.Live?)
            && (x.home.Some? ==> x.home.value in s.blocks && s.blocks[x.home.value].frees == 0)
  {
    ReachableInv(s);
    HandleReferent(s, h);
    var home := s.handles[h].home;
    assert CanHold(s, home) && (home.Some? ==> BlockOk(s, home.value));
  }

  lemma TaskReferent(s: State, t: Id)
    requires Inv(s) && t in s.tasks && !s.tasks[t].Upgrade?
    ensures s.blocks[s.tasks[t].block].frees == 0
  {
    var b := s.tasks[t].block;
    assert BlockOk(s, b);
    TaskRemoved(s.tasks, t, b);
  }

  lemma TargetAllocated(s: State, step: Step)
    requires Inv(s) && Enabled(s, step) && !step.Make?
    ensures Target(s, step) in s.blocks && s.blocks[Target(s, step)].frees == 0
  {
    match step
    case CopyStrong(src, _, _) => HandleReferent(s, src);
    case MakeWeak(src, _, _) => HandleReferent(s, src);
    case Move(src, _, _) => HandleReferent(s, src);
    case ReleaseStrong(h, _) => HandleReferent(s, h);
    case ReleaseWeak(h, _) => HandleReferent(s, h);
    case UpgradeLoad(w, _) => HandleReferent(s, w);
    case UpgradeCas(t, _, _, _) => HandleReferent(s, s.tasks[t].weak);
    case EndDtor(t) => TaskReferent(s, t);
    case ReleaseImplicit(t) => TaskReferent(s, t);
    case Delete(t) => TaskReferent(s, t);
  }

  /** No step of any run reads or writes a control block that was given back, or gives one back twice. */
  lemma NoUseAfterFree(s: State, step: Step)
    requires Reachable(s) && WellFormed(s) && Enabled(s, step) && !step.Make?
    ensures Target(s, step) in s.blocks && s.blocks[Target(s, step)].frees == 0
  {
    ReachableInv(s);
    TargetAllocated(s, step);
  }

  /** The memory is deleted only after the destructor has finished, with nobody left who could
      still look at the block, even when the object held a weak pointer to itself. */
  lemma DeleteIsLast(s: State, t: Id)
    requires Reachable(s) && WellFormed(s) && Enabled(s, Delete(t))
    ensures var b := s.tasks[t].block;
            && s.blocks[b].data.Dead? && s.blocks[b].dtors == 1 && s.blocks[b].frees == 0
            && (forall h :: h in s.handles ==> s.handles[h].block != b && s.handles[h].home != Some(b))
            && (forall u :: u in s.tasks && !s.tasks[u].Upgrade? && s.tasks[u].block == b ==> u == t)
  {
    var b := s.tasks[t].block;
    ReachableInv(s);
    assert BlockOk(s, b);
    TaskRemoved(s.tasks, t, b);
    forall h | h in s.handles
      ensures s.handles[h].block != b && s.handles[h].home != Some(b)
    {
      HandleRemoved(s.handles, h, b);
      assert CanHold(s, s.handles[h].home);
    }
    forall u | u in s.tasks && !s.tasks[u].Upgrade? && s.tasks[u].block == b
      ensures u == t
    {
      if u != t {
        TaskRemoved(s.tasks - {t}, u, b);
      }
    }
  }

  /** Blocks only move forward over any run. */
  lemma {:induction false} RunEvolves(run: seq<State>, b: Id)
    requires IsRun(run) && Inv(run[0]) && b in run[0].blocks
    ensures b in run[|run| - 1].blocks && Evolves(run[0].blocks[b], run[|run| - 1].blocks[b])
  {
    var n := |run| - 1;
    if n > 0 {
      var init := run[..n];
      assert init[0] == run[0] && init[|init| - 1] == run[n - 1];
      RunEvolves(init, b);
      RunKeepsInv(init);
      NextEvolves(run[n - 1], run[n], b);
    }
  }

  /** Once the strong count was zero, no `upgrade` succeeds any more, however stale the value it read. */
  lemma NoResurrection(run: seq<State>, step: Step, b: Id)
    requires IsRun(run) && Reachable(run[0]) && b in run[0].blocks && run[0].blocks[b].strong == 0
    requires var s := run[|run| - 1];
             WellFormed(s) && Enabled(s, step) && step.UpgradeCas? && Target(s, step) == b
    ensures !CasSucceeds(run[|run| - 1], step)
  {
    ReachableInv(run[0]);
    RunEvolves(run, b);
    RunKeepsInv(run);
    assert TaskOk(run[|run| - 1], step.t);
  }

  /** An `upgrade` that succeeds yields a pointer to an object that is alive. */
  lemma UpgradeYieldsLive(s: State, step: Step)
    requires Reachable(s) && WellFormed(s) && Enabled(s, step) && step.UpgradeCas? && CasSucceeds(s, step)
    ensures HandlesAfter(s, step)[step.dst] == Strong(Target(s, step), step.home)
    ensures BlockAfter(s, step).data.Live? && BlockAfter(s, step).strong == s.blocks[Target(s, step)].strong + 1 >= 2
  {
    ReachableInv(s);
    assert BlockOk(s, Target(s, step)) && TaskOk(s, step.t);
  }

  /** Exactly once: when no pointer to the block is left and no continuation of it is pending, the
      destructor has run and the memory has been given back. */
  lemma NothingLeaks(s: State, b: Id)
    requires Reachable(s) && b in s.blocks
    requires forall h :: h in s.handles ==> s.handles[h].block != b
    requires forall t :: t in s.tasks && !s.tasks[t].Upgrade? ==> s.tasks[t].block != b
    ensures s.blocks[b].dtors == 1 && s.blocks[b].frees == 1
  {
    ReachableInv(s);
    assert BlockOk(s, b);
    assert StrongRefs(s.handles, b) == {} && WeakRefs(s.handles, b) == {};
    assert ImplicitRefs(s.tasks, b) == {} && Deletions(s.tasks, b) == {};
  }
}
