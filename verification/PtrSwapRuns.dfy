/** The history of a `PtrSwap` cell over a whole run, told from the actions of the run alone. */
module PtrSwapRuns {
  import opened Wrappers
  import opened RefCount
  import opened PtrSwap

  ghost predicate Leads<V>(m: Memory<V>, a: Action<V>, after: Memory<V>) {
    Sound(m) && Allowed(m, a) && after == Do(m, a)
  }

  /** The states of a run and the actions between them. */
  ghost predicate IsTrace<V>(run: seq<Memory<V>>, actions: seq<Action<V>>) {
    && |run| == |actions| + 1 && run[0] == Start<V>()
    && forall i :: 0 <= i < |actions| ==> Leads(run[i], actions[i], run[i + 1])
  }

  /** An `rcu` call on cell `c` is over after the action, and was not before. */
  ghost predicate Completes<V>(m: Memory<V>, a: Action<V>, after: Memory<V>, c: Id) {
    a.RcuCas? && a.call in m.calls && m.calls[a.call].cell == c && a.call !in after.calls
  }

  ghost predicate Swaps<V>(a: Action<V>, c: Id) { (a.SwapCopy? || a.SwapMove?) && a.cell == c }

  /** What was done to cell `c` since it was created, after one more action: one entry more for a
      completed `rcu` call, its function, or for a swap, what was swapped in. */
  ghost function Extended<V>(m: Memory<V>, a: Action<V>, after: Memory<V>, c: Id, before: seq<Update<V>>)
    : seq<Update<V>>
    requires Sound(m)
  {
    if a.NewCell? && a.cell == c then []
    else if Swaps(a, c) then before + [Stored(ContentOf(m, a.src))]
    else if Completes(m, a, after, c) then before + [Updated(m.calls[a.call].f)]
    else before
  }

  /** What the actions of a run did to cell `c` since it was created, oldest first. */
  ghost function Performed<V>(run: seq<Memory<V>>, actions: seq<Action<V>>, c: Id): seq<Update<V>>
    requires IsTrace(run, actions)
  {
    if actions == [] then [] else
    var n := |actions| - 1;
    Extended(run[n], actions[n], run[n + 1], c, Performed(run[..n + 1], actions[..n], c))
  }

  /** The number of `rcu` calls on cell `c` completed since it was created. */
  ghost function CompletedCalls<V>(run: seq<Memory<V>>, actions: seq<Action<V>>, c: Id): nat
    requires |run| == |actions| + 1
  {
    if actions == [] then 0 else
    var n := |actions| - 1;
    var a, before := actions[n], CompletedCalls(run[..n + 1], actions[..n], c);
    if a.NewCell? && a.cell == c then 0
    else if Completes(run[n], a, run[n + 1], c) then before + 1
    else before
  }

  lemma {:induction false} TraceArises<V(!new)>(run: seq<Memory<V>>, actions: seq<Action<V>>)
    requires IsTrace(run, actions)
    ensures Arises(run[|actions|])
  {
    forall i | 0 < i < |run|
      ensures Follows(run[i - 1], run[i])
    {
      assert Leads(run[i - 1], actions[i - 1], run[i]);
    }
    assert IsHistory(run);
  }

  /** The log follows the actions: nothing but `NewCell` makes a cell, and nothing else appends. */
  lemma StepRecorded<V(!new)>(m: Memory<V>, a: Action<V>, c: Id)
    requires Sound(m) && Allowed(m, a) && c in Do(m, a).cells
    ensures c in Do(m, a).log
    ensures a.NewCell? && a.cell == c ==> Do(m, a).log[c] == Extended(m, a, Do(m, a), c, [])
    ensures !(a.NewCell? && a.cell == c) ==>
              c in m.cells && c in m.log && Do(m, a).log[c] == Extended(m, a, Do(m, a), c, m.log[c])
  {
    hide Inv;
    hide Perform;
    assert !(a.NewCell? && a.cell == c) ==> CellOk(m, c);
    assert a.RcuCas? ==> CallOk(m, a.call);
  }

  lemma ExtendedAnew<V>(m: Memory<V>, a: Action<V>, after: Memory<V>, c: Id, before: seq<Update<V>>)
    requires Sound(m) && a.NewCell? && a.cell == c
    ensures Extended(m, a, after, c, before) == []
  {
  }

  lemma TracePrefix<V>(run: seq<Memory<V>>, actions: seq<Action<V>>)
    requires IsTrace(run, actions) && actions != []
    ensures var n := |actions| - 1;
            IsTrace(run[..n + 1], actions[..n]) && run[..n + 1][n] == run[n] && Leads(run[n], actions[n], run[n + 1])
  {
    hide Leads;
  }

  /** The log of a cell is what the run did to it. */
  lemma {:induction false} LogIsPerformed<V(!new)>(run: seq<Memory<V>>, actions: seq<Action<V>>, c: Id)
    requires IsTrace(run, actions) && c in run[|actions|].cells
    ensures c in run[|actions|].log && run[|actions|].log[c] == Performed(run, actions, c)
  {
    if actions != [] {
      var n := |actions| - 1;
      var a := actions[n];
      TracePrefix(run, actions);
      StepRecorded(run[n], a, c);
      hide Do;
      hide Sound;
      hide Allowed;
      hide Extended;
      hide IsTrace;
      if a.NewCell? && a.cell == c {
        ExtendedAnew(run[n], a, run[n + 1], c, []);
        ExtendedAnew(run[n], a, run[n + 1], c, Performed(run[..n + 1], actions[..n], c));
      } else {
        LogIsPerformed(run[..n + 1], actions[..n], c);
      }
    }
  }

  /** `rcu` loses no update: in every interleaving the content of a cell is the fold of exactly the
      completed calls' functions, and of the swaps between them, in the order in which they happened. */
  lemma ContentIsFold<V(!new)>(run: seq<Memory<V>>, actions: seq<Action<V>>, c: Id)
    requires IsTrace(run, actions) && c in run[|actions|].cells
    ensures WellFormed(run[|actions|].rc) && run[|actions|].values.Keys == run[|actions|].rc.blocks.Keys
    ensures ContentOf(run[|actions|], c) == Replay(Performed(run, actions, c))
  {
    TraceArises(run, actions);
    RcuLosesNoUpdate(run[|actions|], c);
    LogIsPerformed(run, actions, c);
  }

  lemma ExtendedParts<V>(m: Memory<V>, a: Action<V>, after: Memory<V>, c: Id, before: seq<Update<V>>)
    requires Sound(m) && !(a.NewCell? && a.cell == c)
    ensures before <= Extended(m, a, after, c, before)
    ensures Swaps(a, c) ==> exists u :: u in Extended(m, a, after, c, before) && !u.Updated?
    ensures !Swaps(a, c) ==>
              |Extended(m, a, after, c, before)| == |before| + if Completes(m, a, after, c) then 1 else 0
  {
    if Swaps(a, c) {
      assert Stored(ContentOf(m, a.src)) in Extended(m, a, after, c, before);
    }
  }

  lemma {:induction false} OnlyCalls<V(!new)>(run: seq<Memory<V>>, actions: seq<Action<V>>, c: Id)
    requires IsTrace(run, actions)
    requires forall u :: u in Performed(run, actions, c) ==> u.Updated?
    ensures |Performed(run, actions, c)| == CompletedCalls(run, actions, c)
  {
    if actions != [] {
      var n := |actions| - 1;
      var a, before := actions[n], Performed(run[..n + 1], actions[..n], c);
      TracePrefix(run, actions);
      hide IsTrace;
      hide Extended;
      hide Sound;
      hide Do;
      hide Allowed;
      hide Completes;
      if a.NewCell? && a.cell == c {
        ExtendedAnew(run[n], a, run[n + 1], c, before);
      } else {
        ExtendedParts(run[n], a, run[n + 1], c, before);
        assert forall u :: u in before ==> u in Performed(run, actions, c);
        OnlyCalls(run[..n + 1], actions[..n], c);
      }
    }
  }

  /** When everything done to a cell is an `rcu` that pushes one element, the length of its content is
      the number of calls that have completed, in every interleaving. */
  lemma EveryPushCounts<T(!new)>(run: seq<Memory<seq<T>>>, actions: seq<Action<seq<T>>>, c: Id)
    requires IsTrace(run, actions) && c in run[|actions|].cells
    requires forall u :: u in Performed(run, actions, c) ==> Pushes(u)
    ensures WellFormed(run[|actions|].rc) && run[|actions|].values.Keys == run[|actions|].rc.blocks.Keys
    ensures Length(ContentOf(run[|actions|], c)) == CompletedCalls(run, actions, c)
  {
    ContentIsFold(run, actions, c);
    ReplayLength(Performed(run, actions, c));
    OnlyCalls(run, actions, c);
  }
}
