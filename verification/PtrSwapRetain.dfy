/** The late increment of the copying `swap` and of `rcu`: the atomic exchange publishes the new pointer
    in the cell before it is counted there.  Between the exchange and the increment the strong count of
    the block is one less than the number of strong pointers, and other threads go on. */
module PtrSwapRetain {
  import opened Wrappers
  import opened RefCount

  /** The exchange has put the pointer of slot `src` into the cell, uncounted. */
  ghost function Published(rc: State, src: Id, cell: Id): State
    requires src in rc.handles
  {
    rc.(handles := rc.handles[cell := Strong(rc.handles[src].block, None)])
  }

  /** The increment that is owed for block `b`, carried out now. */
  ghost function Credited(rc: State, b: Id): State
    requires b in rc.blocks
  {
    rc.(blocks := rc.blocks[b := rc.blocks[b].(strong := rc.blocks[b].strong + 1)])
  }

  /** A release that takes the count of `b` to zero. */
  ghost predicate LastRelease(rc: State, step: Step, b: Id)
    requires b in rc.blocks && WellFormed(rc) && Enabled(rc, step)
  {
    step.ReleaseStrong? && Target(rc, step) == b && rc.blocks[b].strong == 1
  }

  ghost predicate Steps(rc: State, step: Step, after: State) {
    WellFormed(rc) && Enabled(rc, step) && after == Apply(rc, step)
  }

  /** What the other threads do, from the exchange on. */
  ghost predicate IsInterval(run: seq<State>, steps: seq<Step>) {
    |run| == |steps| + 1 && forall i :: 0 <= i < |steps| ==> Steps(run[i], steps[i], run[i + 1])
  }

  // ------------------------------------------------------------------------- one step, uncounted

  /** The increment, were it carried out at once, would be a plain copy. */
  lemma PublishedIsCopy(rc: State, src: Id, cell: Id)
    requires Inv(rc) && src in rc.handles && rc.handles[src].Strong? && cell !in rc.handles
    ensures var b := rc.handles[src].block;
            && b in Published(rc, src, cell).blocks && Inv(Credited(Published(rc, src, cell), b))
            && Published(rc, src, cell).blocks[b].strong >= 1
  {
    var step := CopyStrong(src, cell, None);
    StepKeepsInv(rc, step);
    HandleReferent(rc, src);
    hide Inv;
    assert Credited(Published(rc, src, cell), rc.handles[src].block) == Apply(rc, step);
  }

  lemma CreditedEnabled(rc: State, b: Id, step: Step)
    requires b in rc.blocks
    ensures WellFormed(Credited(rc, b)) <==> WellFormed(rc)
    ensures Enabled(Credited(rc, b), step) <==> Enabled(rc, step)
  {
    var c := Credited(rc, b);
    assert c.blocks.Keys == rc.blocks.Keys && c.handles == rc.handles && c.tasks == rc.tasks;
    assert forall x :: x in rc.blocks ==>
      c.blocks[x].addr == rc.blocks[x].addr && c.blocks[x].frees == rc.blocks[x].frees &&
      c.blocks[x].data == rc.blocks[x].data;
    assert forall h :: Pinned(c, h) <==> Pinned(rc, h);
    assert forall home :: CanHold(c, home) <==> CanHold(rc, home);
  }

  /** The next value that an `upgrade` in progress compares with is no matter of the invariant. */
  ghost function Retargeted(rc: State, t: Id, expected: int): State
    requires t in rc.tasks && rc.tasks[t].Upgrade?
  {
    rc.(tasks := rc.tasks[t := Upgrade(rc.tasks[t].weak, expected)])
  }

  lemma RetargetKeepsInv(rc: State, t: Id, expected: int)
    requires Inv(rc) && t in rc.tasks && rc.tasks[t].Upgrade? && expected > 0
    ensures Inv(Retargeted(rc, t, expected))
  {
    var after := Retargeted(rc, t, expected);
    forall b | b in after.blocks
      ensures BlockOk(after, b)
    {
      assert BlockOk(rc, b);
      TaskReplaced(rc.tasks, t, after.tasks[t], b);
      hide ImplicitRefs;
      hide Deletions;
    }
    forall u | u in after.tasks
      ensures TaskOk(after, u)
    {
      assert TaskOk(rc, u);
    }
    hide BlockOk;
    hide TaskOk;
    assert forall h :: h in rc.handles ==> CanHold(rc, rc.handles[h].home);
  }

  lemma RetargetEnabled(rc: State, t: Id, expected: int, step: Step)
    requires WellFormed(rc) && t in rc.tasks && rc.tasks[t].Upgrade? && Enabled(rc, step) && step.UpgradeCas?
    ensures WellFormed(Retargeted(rc, t, expected)) && Enabled(Retargeted(rc, t, expected), step)
  {
  }

  /** What a step does to the memory of `b` is the same whether the increment comes before or after it. */
  lemma BlockCommutes(rc: State, b: Id, step: Step)
    requires b in rc.blocks && WellFormed(rc) && Enabled(rc, step) && rc.blocks[b].strong >= 1
    requires !LastRelease(rc, step, b) && !step.UpgradeLoad? && !step.UpgradeCas?
    requires WellFormed(Credited(rc, b)) && Enabled(Credited(rc, b), step)
    ensures Target(Credited(rc, b), step) == Target(rc, step)
    ensures var k, k' := BlockAfter(rc, step), BlockAfter(Credited(rc, b), step);
            k' == if Target(rc, step) == b then k.(strong := k.strong + 1) else k
  {
    assert step.Make? ==> step.b != b;
    hide WellFormed;
    hide Enabled;
  }

  lemma RestCommutes(rc: State, b: Id, step: Step)
    requires b in rc.blocks && WellFormed(rc) && Enabled(rc, step) && rc.blocks[b].strong >= 1
    requires !LastRelease(rc, step, b) && !step.UpgradeLoad? && !step.UpgradeCas?
    requires WellFormed(Credited(rc, b)) && Enabled(Credited(rc, b), step)
    ensures HandlesAfter(Credited(rc, b), step) == HandlesAfter(rc, step)
    ensures TasksAfter(Credited(rc, b), step) == TasksAfter(rc, step)
  {
    hide WellFormed;
    hide Enabled;
  }

  /** Every step but those of `upgrade` does the same whether the increment comes before or after it. */
  lemma CreditCommutes(rc: State, b: Id, step: Step)
    requires b in rc.blocks && WellFormed(rc) && Enabled(rc, step) && rc.blocks[b].strong >= 1
    requires !LastRelease(rc, step, b) && !step.UpgradeLoad? && !step.UpgradeCas?
    requires WellFormed(Credited(rc, b)) && Enabled(Credited(rc, b), step)
    ensures Credited(Apply(rc, step), b) == Apply(Credited(rc, b), step)
  {
    BlockCommutes(rc, b, step);
    RestCommutes(rc, b, step);
    hide Enabled;
    hide WellFormed;
    hide BlockAfter;
    hide Target;
    hide HandlesAfter;
    hide TasksAfter;
    assert Credited(Apply(rc, step), b).blocks == Apply(Credited(rc, b), step).blocks;
  }

  /** An `upgrade` that reads the uncounted value differs from one that reads the counted one only in
      the value it compares with later. */
  lemma LoadCommutes(rc: State, b: Id, step: Step)
    requires b in rc.blocks && WellFormed(rc) && Enabled(rc, step) && rc.blocks[b].strong >= 1 && step.UpgradeLoad?
    requires WellFormed(Credited(rc, b)) && Enabled(Credited(rc, b), step)
    ensures var before, after := Credited(Apply(rc, step), b), Apply(Credited(rc, b), step);
            if Target(rc, step) == b
            then step.t in after.tasks && after.tasks[step.t].Upgrade?
                 && before == Retargeted(after, step.t, rc.blocks[b].strong)
            else before == after
  {
    var before, after := Credited(Apply(rc, step), b), Apply(Credited(rc, b), step);
    assert before.blocks == after.blocks && before.handles == after.handles;
  }

  /** Likewise for the compare-exchange, if the credited one compares with one more. */
  lemma CasCommutes(rc: State, b: Id, step: Step, credited: State)
    requires b in rc.blocks && WellFormed(rc) && Enabled(rc, step) && rc.blocks[b].strong >= 1 && step.UpgradeCas?
    requires var c := Credited(rc, b);
             credited == if Target(rc, step) == b then Retargeted(c, step.t, rc.tasks[step.t].expected + 1) else c
    requires WellFormed(credited) && Enabled(credited, step)
    ensures var before, after := Credited(Apply(rc, step), b), Apply(credited, step);
            if Target(rc, step) == b && !CasSucceeds(rc, step)
            then step.t in after.tasks && after.tasks[step.t].Upgrade?
                 && before == Retargeted(after, step.t, rc.blocks[b].strong)
            else before == after
  {
    hide CanHold;
    var before, after := Credited(Apply(rc, step), b), Apply(credited, step);
    assert Target(credited, step) == Target(rc, step);
    assert CasSucceeds(credited, step) <==> CasSucceeds(rc, step);
    assert before.handles == after.handles;
    assert before.blocks == after.blocks;
    if Target(rc, step) == b && !CasSucceeds(rc, step) {
      assert before.tasks == Retargeted(after, step.t, rc.blocks[b].strong).tasks;
    } else {
      assert before.tasks == after.tasks;
    }
  }

  lemma CountStaysPositive(rc: State, b: Id, step: Step)
    requires b in rc.blocks && WellFormed(rc) && Enabled(rc, step) && rc.blocks[b].strong >= 1
    requires !LastRelease(rc, step, b)
    ensures Apply(rc, step).blocks[b].strong >= 1
  {
    assert step.Make? ==> step.b != b;
    hide WellFormed;
    hide Enabled;
    hide HandlesAfter;
    hide TasksAfter;
  }

  lemma CasKeepsCredit(rc: State, b: Id, step: Step)
    requires b in rc.blocks && WellFormed(rc) && Enabled(rc, step) && step.UpgradeCas?
    requires Inv(Credited(rc, b)) && Enabled(Credited(rc, b), step) && rc.blocks[b].strong >= 1
    ensures Inv(Credited(Apply(rc, step), b))
  {
    var c := Credited(rc, b);
    assert TaskOk(c, step.t);
    var credited := c;
    if Target(rc, step) == b {
      RetargetKeepsInv(c, step.t, rc.tasks[step.t].expected + 1);
      RetargetEnabled(c, step.t, rc.tasks[step.t].expected + 1, step);
      credited := Retargeted(c, step.t, rc.tasks[step.t].expected + 1);
    }
    CasCommutes(rc, b, step, credited);
    StepKeepsInv(credited, step);
    hide Inv;
    hide Apply;
    hide Target;
    hide CasSucceeds;
    if Target(rc, step) == b && !CasSucceeds(rc, step) {
      RetargetKeepsInv(Apply(credited, step), step.t, rc.blocks[b].strong);
    }
  }

  /** As long as no release takes the count to zero, the state is sound up to the increment. */
  lemma StepKeepsCredit(rc: State, b: Id, step: Step)
    requires b in rc.blocks && WellFormed(rc) && Enabled(rc, step)
    requires Inv(Credited(rc, b)) && rc.blocks[b].strong >= 1 && !LastRelease(rc, step, b)
    ensures b in Apply(rc, step).blocks && Inv(Credited(Apply(rc, step), b)) && Apply(rc, step).blocks[b].strong >= 1
  {
    CreditedEnabled(rc, b, step);
    CountStaysPositive(rc, b, step);
    hide Inv;
    hide Enabled;
    hide WellFormed;
    hide BlockAfter;
    hide TasksAfter;
    hide HandlesAfter;
    if step.UpgradeCas? {
      CasKeepsCredit(rc, b, step);
    } else {
      StepKeepsInv(Credited(rc, b), step);
      if step.UpgradeLoad? {
        LoadCommutes(rc, b, step);
        hide Apply;
        hide Target;
        if Target(rc, step) == b {
          RetargetKeepsInv(Apply(Credited(rc, b), step), step.t, rc.blocks[b].strong);
        }
      } else {
        CreditCommutes(rc, b, step);
      }
    }
  }

  // ---------------------------------------------------------------------------------- intervals

  lemma LastReleaseBreaks(rc: State, b: Id, step: Step)
    requires b in rc.blocks && WellFormed(rc) && Enabled(rc, step) && LastRelease(rc, step, b)
    ensures b in Apply(rc, step).blocks && !Apply(rc, step).blocks[b].data.Live?
  {
  }

  lemma NeverLiveAgain(rc: State, b: Id, step: Step)
    requires b in rc.blocks && WellFormed(rc) && Enabled(rc, step) && !rc.blocks[b].data.Live?
    ensures b in Apply(rc, step).blocks && !Apply(rc, step).blocks[b].data.Live?
  {
    assert step.Make? ==> step.b != b;
    hide WellFormed;
    hide Enabled;
  }

  /** A count that the increment makes positive does not bring an object back. */
  lemma DeadStaysBroken(rc: State, b: Id)
    requires b in rc.blocks && !rc.blocks[b].data.Live? && rc.blocks[b].strong >= 0
    ensures !Inv(Credited(rc, b))
  {
    assert !BlockOk(Credited(rc, b), b);
  }

  lemma {:induction false} BlockStays(run: seq<State>, steps: seq<Step>, b: Id, i: nat)
    requires IsInterval(run, steps) && i <= |steps| && b in run[0].blocks
    ensures b in run[i].blocks
  {
    if i > 0 {
      BlockStays(run, steps, b, i - 1);
      assert Steps(run[i - 1], steps[i - 1], run[i]);
    }
  }

  /** Some release within the first `n` steps takes the count of `b` to zero. */
  ghost predicate Emptied(run: seq<State>, steps: seq<Step>, b: Id, n: nat)
    requires IsInterval(run, steps) && n <= |steps|
  {
    exists i :: 0 <= i < n && Steps(run[i], steps[i], run[i + 1]) && b in run[i].blocks &&
                LastRelease(run[i], steps[i], b)
  }

  lemma {:induction false} SoundUntilEmptied(run: seq<State>, steps: seq<Step>, b: Id, n: nat)
    requires IsInterval(run, steps) && n <= |steps| && !Emptied(run, steps, b, n)
    requires b in run[0].blocks && Inv(Credited(run[0], b)) && run[0].blocks[b].strong >= 1
    ensures b in run[n].blocks && Inv(Credited(run[n], b)) && run[n].blocks[b].strong >= 1
  {
    if n > 0 {
      SoundUntilEmptied(run, steps, b, n - 1);
      assert Steps(run[n - 1], steps[n - 1], run[n]);
      hide Inv;
      StepKeepsCredit(run[n - 1], b, steps[n - 1]);
    }
  }

  lemma {:induction false} BrokenOnceEmptied(run: seq<State>, steps: seq<Step>, b: Id, n: nat)
    requires IsInterval(run, steps) && n <= |steps| && Emptied(run, steps, b, n) && b in run[0].blocks
    ensures b in run[n].blocks && !run[n].blocks[b].data.Live?
  {
    BlockStays(run, steps, b, n - 1);
    assert Steps(run[n - 1], steps[n - 1], run[n]);
    if LastRelease(run[n - 1], steps[n - 1], b) {
      LastReleaseBreaks(run[n - 1], b, steps[n - 1]);
    } else {
      BrokenOnceEmptied(run, steps, b, n - 1);
      NeverLiveAgain(run[n - 1], b, steps[n - 1]);
    }
  }

  /** Exactly when is the late increment of a copying `swap` or of `rcu` safe, whatever other threads do
      in between?  When no release meanwhile takes the count of the new pointer's block to zero, although
      the pointer is in the cell and in the caller's hand: then, and only then, the increment leaves
      every guarantee of the protocol intact at every moment at which it may come. */
  lemma LateRetainExactly(rc: State, src: Id, cell: Id, run: seq<State>, steps: seq<Step>)
    requires Inv(rc) && src in rc.handles && rc.handles[src].Strong? && cell !in rc.handles
    requires IsInterval(run, steps) && run[0] == Published(rc, src, cell)
    ensures var b, last := rc.handles[src].block, run[|steps|];
            && (forall i :: 0 <= i <= |steps| ==> b in run[i].blocks)
            && ((forall i :: 0 <= i <= |steps| ==> Inv(Credited(run[i], b))) <==> !Emptied(run, steps, b, |steps|))
            && (last.blocks[b].strong >= 0 ==> (Inv(Credited(last, b)) <==> !Emptied(run, steps, b, |steps|)))
            && (Emptied(run, steps, b, |steps|) ==> !last.blocks[b].data.Live?)
  {
    var b, n := rc.handles[src].block, |steps|;
    PublishedIsCopy(rc, src, cell);
    hide Inv;
    hide Published;
    hide Credited;
    forall i | 0 <= i <= n
      ensures b in run[i].blocks
    {
      BlockStays(run, steps, b, i);
    }
    if Emptied(run, steps, b, n) {
      BrokenOnceEmptied(run, steps, b, n);
      if run[n].blocks[b].strong >= 0 {
        DeadStaysBroken(run[n], b);
      }
      FirstEmptied(run, steps, b, n);
    } else {
      forall i | 0 <= i <= n
        ensures Inv(Credited(run[i], b))
      {
        SoundUntilEmptied(run, steps, b, i);
      }
    }
  }

  lemma FirstEmptied(run: seq<State>, steps: seq<Step>, b: Id, n: nat)
    requires IsInterval(run, steps) && n <= |steps| && Emptied(run, steps, b, n)
    ensures exists i :: 0 <= i <= n && b in run[i].blocks && !Inv(Credited(run[i], b))
  {
    var i :| 0 <= i < n && Steps(run[i], steps[i], run[i + 1]) && b in run[i].blocks &&
             LastRelease(run[i], steps[i], b);
    LastReleaseBreaks(run[i], b, steps[i]);
    assert run[i + 1].blocks[b].strong == 0;
    DeadStaysBroken(run[i + 1], b);
  }

  ghost predicate Holds(rc: State, slot: Id, b: Id) { slot in rc.handles && rc.handles[slot] == Strong(b, None) }

  lemma OnlyTwo(s: set<Id>, x: Id, y: Id)
    requires |s| == 2 && x in s && y in s && x != y
    ensures s == {x, y}
  {
    assert |s - {x} - {y}| == 0;
  }

  /** The release that takes a count of one to zero takes away one of two pointers, counted or not. */
  lemma LastReleaseTakesOne(rc: State, b: Id, step: Step, x: Id, y: Id)
    requires b in rc.blocks && WellFormed(rc) && Enabled(rc, step) && LastRelease(rc, step, b)
    requires Inv(Credited(rc, b)) && x != y && Holds(rc, x, b) && Holds(rc, y, b)
    ensures !Holds(Apply(rc, step), x, b) || !Holds(Apply(rc, step), y, b)
  {
    assert BlockOk(Credited(rc, b), b);
    hide Inv;
    OnlyTwo(StrongRefs(rc.handles, b), x, y);
    assert step.h in StrongRefs(rc.handles, b);
  }

  lemma KeptStep(rc: State, b: Id, step: Step, after: State, x: Id, y: Id)
    requires b in rc.blocks && Steps(rc, step, after) && Inv(Credited(rc, b))
    requires x != y && Holds(rc, x, b) && Holds(rc, y, b) && Holds(after, x, b) && Holds(after, y, b)
    ensures WellFormed(rc) && Enabled(rc, step) && !LastRelease(rc, step, b)
  {
    if LastRelease(rc, step, b) {
      LastReleaseTakesOne(rc, b, step, x, y);
    }
  }

  lemma EmptiedStep(run: seq<State>, steps: seq<Step>, b: Id, n: nat)
    requires IsInterval(run, steps) && 0 < n <= |steps| && b in run[n - 1].blocks
    ensures Steps(run[n - 1], steps[n - 1], run[n]) && WellFormed(run[n - 1]) && Enabled(run[n - 1], steps[n - 1])
    ensures Emptied(run, steps, b, n) ==> Emptied(run, steps, b, n - 1) || LastRelease(run[n - 1], steps[n - 1], b)
  {
    assert Steps(run[n - 1], steps[n - 1], run[n]);
    hide LastRelease;
  }

  /** As long as the pointer stays in the cell and in the caller's hand, the increment is in time. */
  lemma {:induction false} KeptIsSafe(run: seq<State>, steps: seq<Step>, b: Id, src: Id, cell: Id, n: nat)
    requires IsInterval(run, steps) && n <= |steps| && src != cell
    requires b in run[0].blocks && Inv(Credited(run[0], b)) && run[0].blocks[b].strong >= 1
    requires forall i :: 0 <= i <= |steps| ==> Holds(run[i], src, b) && Holds(run[i], cell, b)
    ensures !Emptied(run, steps, b, n)
  {
    if n > 0 {
      hide Inv;
      hide Holds;
      hide Emptied;
      hide Steps;
      hide WellFormed;
      KeptIsSafe(run, steps, b, src, cell, n - 1);
      SoundUntilEmptied(run, steps, b, n - 1);
      EmptiedStep(run, steps, b, n);
      KeptStep(run[n - 1], b, steps[n - 1], run[n], src, cell);
    }
  }

  // ----------------------------------------------------------------------------- the lost owner

  /** The run in which the increment comes too late although the caller holds on to its own pointer all
      the time: another thread takes the uncounted pointer out of the cell and releases it.  The object
      is being destroyed, and a copy that the caller makes brings the count back above zero but not the
      object. */
  lemma OwnerLosesObject() returns (rc: State, run: seq<State>, steps: seq<Step>)
    ensures Reachable(rc) && Inv(rc) && rc.handles == map[1 := Strong(0, None)]
    ensures IsInterval(run, steps) && run[0] == Published(rc, 1, 0)
    ensures steps == [Move(0, 2, None), ReleaseStrong(2, 0), CopyStrong(1, 5, None)]
    ensures forall i :: 0 <= i <= 3 ==> 1 in run[i].handles && run[i].handles[1] == Strong(0, None)
    ensures 0 in run[3].blocks && run[3].blocks[0].strong == 1 && run[3].blocks[0].data.Dying?
    ensures run[3].tasks == map[0 := Dtor(0)] && !Inv(Credited(run[3], 0))
  {
    rc := Apply(INITIAL, Make(0, 1, 1));
    InitInv();
    StepKeepsInv(INITIAL, Make(0, 1, 1));
    assert IsRun([INITIAL, rc]) by {
      assert Enabled(INITIAL, Make(0, 1, 1)) && Next(INITIAL, rc);
    }
    assert rc == State(map[0 := Block(1, 1, 1, Live, 0, 0)], map[1 := Strong(0, None)], map[]);
    steps := [Move(0, 2, None), ReleaseStrong(2, 0), CopyStrong(1, 5, None)];
    run := OwnerRun(rc);
    DeadStaysBroken(run[3], 0);
  }

  lemma OwnerRun(rc: State) returns (run: seq<State>)
    requires rc == State(map[0 := Block(1, 1, 1, Live, 0, 0)], map[1 := Strong(0, None)], map[])
    ensures IsInterval(run, [Move(0, 2, None), ReleaseStrong(2, 0), CopyStrong(1, 5, None)])
    ensures run[0] == Published(rc, 1, 0)
    ensures forall i :: 0 <= i <= 3 ==> 1 in run[i].handles && run[i].handles[1] == Strong(0, None)
    ensures run[3].blocks == map[0 := Block(1, 1, 1, Dying, 1, 0)] && run[3].tasks == map[0 := Dtor(0)]
  {
    var live, dying := map[0 := Block(1, 1, 1, Live, 0, 0)], map[0 := Block(1, 0, 1, Dying, 1, 0)];
    var s0 := State(live, map[0 := Strong(0, None), 1 := Strong(0, None)], map[]);
    var s1 := State(live, map[1 := Strong(0, None), 2 := Strong(0, None)], map[]);
    var s2 := State(dying, map[1 := Strong(0, None)], map[0 := Dtor(0)]);
    var s3 := State(map[0 := Block(1, 1, 1, Dying, 1, 0)], map[1 := Strong(0, None), 5 := Strong(0, None)],
                    map[0 := Dtor(0)]);
    hide Steps;
    TakenOut(s0, s1);
    Released(s1, s2);
    CopiedTooLate(s2, s3);
    run := [s0, s1, s2, s3];
  }

  lemma TakenOut(before: State, after: State)
    requires before == State(map[0 := Block(1, 1, 1, Live, 0, 0)],
                             map[0 := Strong(0, None), 1 := Strong(0, None)], map[])
    requires after == before.(handles := map[1 := Strong(0, None), 2 := Strong(0, None)])
    ensures Steps(before, Move(0, 2, None), after)
  {
  }

  lemma Released(before: State, after: State)
    requires before == State(map[0 := Block(1, 1, 1, Live, 0, 0)],
                             map[1 := Strong(0, None), 2 := Strong(0, None)], map[])
    requires after == State(map[0 := Block(1, 0, 1, Dying, 1, 0)], map[1 := Strong(0, None)], map[0 := Dtor(0)])
    ensures Steps(before, ReleaseStrong(2, 0), after)
  {
  }

  lemma CopiedTooLate(before: State, after: State)
    requires before == State(map[0 := Block(1, 0, 1, Dying, 1, 0)], map[1 := Strong(0, None)], map[0 := Dtor(0)])
    requires after == State(map[0 := Block(1, 1, 1, Dying, 1, 0)],
                            map[1 := Strong(0, None), 5 := Strong(0, None)], map[0 := Dtor(0)])
    ensures Steps(before, CopyStrong(1, 5, None), after)
  {
  }
}
