/** `ThreadPool`: workers that take tasks from a channel, and a counter that `join` waits on.

    `pushTask` counts a task and then queues it; a worker pops a task, runs it (an exception that the
    handler takes counts as the end of the task), and then takes it off the count.  Each of these is
    a step of its own, interleaved with the steps of all other threads. */
module ThreadPool {
  import opened Wrappers
  import Ch = Channel

  type Id = nat

  datatype State = State(
    chan: Ch.State<Id>,
    remainingWork: int,
    counted: set<Id>,             // tasks counted, whose `push` has not happened yet
    running: map<Id, Id>,         // by worker
    ended: map<Id, Id>,           // by worker: the task is over, the counter not yet decremented
    submitted: set<Id>,           // tasks whose `pushTask` has put them into the queue
    starts: seq<Id>,              // tasks in the order in which workers took them on
    finished: set<Id>)

  datatype Step =
    | Count(task: Id)
    | Enqueue(task: Id, notified: Option<Id>)
    | Poll(w: Id)                 // `popTimeout`, first look
    | Wake(w: Id, timeUp: bool)   // the wait of a worker ends without a notification
    | Resume(w: Id)               // `popTimeout`, after the wait
    | Finish(w: Id)
    | Decrement(w: Id)

  ghost const INITIAL := State(Ch.Initial<Id>(), 0, {}, map[], map[], {}, [], {})

  ghost predicate Parked(s: State, w: Id) { w in s.chan.waiting || w in s.chan.awake }

  ghost predicate Busy(s: State, w: Id) { w in s.running || w in s.ended }

  /** The step of the channel that a step of the pool makes. */
  ghost function ChannelStep(step: Step): Option<Ch.Step<Id>> {
    match step
    case Enqueue(task, notified) => Some(Ch.Push(task, notified))
    case Poll(w) => Some(Ch.Receive(w, Ch.PopTimeout))
    case Wake(w, timeUp) => Some(if timeUp then Ch.TimeUp(w) else Ch.Spurious(w))
    case Resume(w) => Some(Ch.Return(w))
    case _ => None
  }

  ghost predicate Enabled(s: State, step: Step) {
    && (ChannelStep(step).Some? ==> Ch.Enabled(s.chan, ChannelStep(step).value))
    && match step
       case Count(task) => task !in s.submitted && task !in s.counted
       case Enqueue(task, _) => task in s.counted
       case Poll(w) => !Busy(s, w)
       case Finish(w) => w in s.running
       case Decrement(w) => w in s.ended
       case _ => true
  }

  ghost function Apply(s: State, step: Step): State
    requires Enabled(s, step)
  {
    var taken := if ChannelStep(step).Some? then Ch.Taken(s.chan, ChannelStep(step).value) else None;
    var s1 := if ChannelStep(step).Some? then s.(chan := Ch.Apply(s.chan, ChannelStep(step).value)) else s;
    match step
    case Count(task) => s.(counted := s.counted + {task}, remainingWork := s.remainingWork + 1)
    case Enqueue(task, _) => s1.(counted := s.counted - {task}, submitted := s.submitted + {task})
    case Poll(w) => Started(s1, w, taken)
    case Wake(_, _) => s1
    case Resume(w) => Started(s1, w, taken)
    case Finish(w) =>
      s.(running := s.running - {w}, ended := s.ended[w := s.running[w]], finished := s.finished + {s.running[w]})
    case Decrement(w) => s.(ended := s.ended - {w}, remainingWork := s.remainingWork - 1)
  }

  ghost function Started(s: State, w: Id, taken: Option<Id>): State {
    if taken == None then s else
    s.(running := s.running[w := taken.value], starts := s.starts + [taken.value])
  }

  // --------------------------------------------------------------------------------- invariant

  /** Where a submitted task is: in the queue, at a worker, or done. */
  ghost predicate TaskOk(s: State, t: Id) {
    && (t in s.counted ==> t !in s.submitted)
    && (t in s.chan.queue ==> t in s.submitted)
    && (t in s.starts ==> t in s.submitted && t !in s.chan.queue)
    && multiset(s.starts)[t] <= 1
    && (t in s.finished ==> t in s.starts)
    && (t in s.submitted ==> t in s.chan.queue || t in s.running.Values || t in s.finished)
  }

  ghost predicate Distinct(q: seq<Id>) { forall i, j :: 0 <= i < j < |q| ==> q[i] != q[j] }

  ghost predicate Inv(s: State) {
    && Ch.Inv(s.chan)
    && s.remainingWork == |s.counted| + |s.chan.queue| + |s.running| + |s.ended|
    && s.running.Keys !! s.ended.Keys
    && (forall w :: Parked(s, w) ==> !Busy(s, w))
    && (forall w :: w in s.running ==> s.running[w] in s.starts)
    && Distinct(s.chan.queue)
    && (forall t :: TaskOk(s, t))
  }

  lemma InitInv()
    ensures Inv(INITIAL)
  {
  }

  ghost function TakenBy(s: State, step: Step): Option<Id>
    requires Enabled(s, step)
  {
    if ChannelStep(step).Some? then Ch.Taken(s.chan, ChannelStep(step).value) else None
  }

  lemma ChannelEffect(s: State, step: Step)
    requires Enabled(s, step)
    ensures Apply(s, step).chan.queue ==
              if step.Enqueue? then s.chan.queue + [step.task]
              else if TakenBy(s, step).Some? then s.chan.queue[1..]
              else s.chan.queue
    ensures Apply(s, step).chan.popped ==
              if TakenBy(s, step).Some? then s.chan.popped + [TakenBy(s, step).value] else s.chan.popped
    ensures TakenBy(s, step).Some? ==> s.chan.queue != [] && TakenBy(s, step).value == s.chan.queue[0]
                                       && (step.Poll? || step.Resume?)
  {
  }

  lemma AddedSize<T>(a: set<T>, x: T)
    requires x !in a
    ensures |a + {x}| == |a| + 1
  {
  }

  lemma MapSizes(m: map<Id, Id>, w: Id, t: Id)
    ensures w !in m ==> |m[w := t]| == |m| + 1
    ensures w in m ==> |m - {w}| == |m| - 1
  {
    assert w !in m ==> m[w := t].Keys == m.Keys + {w};
    assert w in m ==> (m - {w}).Keys == m.Keys - {w};
  }

  lemma CountFacts(s: State, step: Step)
    requires Inv(s) && Enabled(s, step)
    ensures s.remainingWork == |s.counted| + |s.chan.queue| + |s.running| + |s.ended|
    ensures s.running.Keys !! s.ended.Keys
    ensures step.Poll? || step.Resume? ==> !Busy(s, step.w)
    ensures step.Count? ==> step.task !in s.counted
    ensures step.Enqueue? ==> step.task in s.counted
    ensures step.Finish? ==> step.w in s.running
    ensures step.Decrement? ==> step.w in s.ended
  {
    assert step.Resume? ==> Parked(s, step.w);
  }

  lemma StepKeepsCount(s: State, step: Step)
    requires Inv(s) && Enabled(s, step)
    ensures var s' := Apply(s, step);
            s'.remainingWork == |s'.counted| + |s'.chan.queue| + |s'.running| + |s'.ended|
  {
    hide Inv;
    hide Enabled;
    hide Ch.Apply;
    hide Ch.Enabled;
    hide Ch.Taken;
    ChannelEffect(s, step);
    CountFacts(s, step);
    match step
    case Count(task) => AddedSize(s.counted, task);
    case Enqueue(task, _) => AddedSize(s.counted - {task}, task); assert s.counted - {task} + {task} == s.counted;
    case Poll(w) => MapSizes(s.running, w, if TakenBy(s, step).Some? then TakenBy(s, step).value else 0);
    case Resume(w) => MapSizes(s.running, w, if TakenBy(s, step).Some? then TakenBy(s, step).value else 0);
    case Finish(w) => MapSizes(s.running, w, 0); MapSizes(s.ended, w, s.running[w]);
    case Decrement(w) => MapSizes(s.ended, w, 0);
    case Wake(_, _) =>
  }

  lemma StepKeepsChannel(s: State, step: Step)
    requires Inv(s) && Enabled(s, step)
    ensures Ch.Inv(Apply(s, step).chan) && Distinct(Apply(s, step).chan.queue)
  {
    ChannelEffect(s, step);
    if ChannelStep(step).Some? {
      Ch.StepKeepsInv(s.chan, ChannelStep(step).value);
    }
    if step.Enqueue? {
      assert TaskOk(s, step.task);
    }
  }

  /** Whom a step of the channel can park. */
  lemma ChannelParks(c: Ch.State<Id>, step: Ch.Step<Id>, w: Id)
    requires Ch.Enabled(c, step)
    requires w in Ch.Apply(c, step).waiting || w in Ch.Apply(c, step).awake
    ensures w in c.waiting || w in c.awake || (step.Receive? && step.r == w)
    ensures step.Receive? && step.r == w ==> Ch.Taken(c, step) == None
    ensures step.Return? && step.r == w && w !in c.waiting ==> Ch.Taken(c, step) == None
  {
  }

  /** A worker parks when it finds the queue empty, and is not parked when it has taken a task. */
  lemma ParkedEffect(s: State, step: Step, w: Id)
    requires Inv(s) && Enabled(s, step) && Parked(Apply(s, step), w)
    ensures Parked(s, w) || (step.Poll? && step.w == w)
    ensures (step.Poll? || step.Resume?) && step.w == w ==> TakenBy(s, step) == None
  {
    hide TaskOk;
    if ChannelStep(step).Some? {
      ChannelParks(s.chan, ChannelStep(step).value, w);
      hide Ch.Apply;
    }
  }

  lemma StepKeepsParked(s: State, step: Step, w: Id)
    requires Inv(s) && Enabled(s, step) && Parked(Apply(s, step), w)
    ensures !Busy(Apply(s, step), w)
  {
    ParkedEffect(s, step, w);
    hide TaskOk;
    hide Ch.Apply;
    hide Ch.Enabled;
    hide Ch.Taken;
  }

  lemma StepKeepsRunning(s: State, step: Step)
    requires Inv(s) && Enabled(s, step)
    ensures var s' := Apply(s, step);
            s'.running.Keys !! s'.ended.Keys && forall w :: w in s'.running ==> s'.running[w] in s'.starts
  {
    assert step.Resume? ==> Parked(s, step.w);
    hide TaskOk;
    hide Ch.Apply;
    hide Ch.Enabled;
    hide Ch.Taken;
  }

  /** How a step changes the records of tasks. */
  lemma RecordsEffect(s: State, step: Step)
    requires Enabled(s, step)
    ensures var s' := Apply(s, step);
            && s'.counted == (if step.Count? then s.counted + {step.task}
                              else if step.Enqueue? then s.counted - {step.task}
                              else s.counted)
            && s'.submitted == (if step.Enqueue? then s.submitted + {step.task} else s.submitted)
            && s'.starts == (if TakenBy(s, step).Some? then s.starts + [TakenBy(s, step).value] else s.starts)
            && s'.finished == (if step.Finish? then s.finished + {s.running[step.w]} else s.finished)
            && (TakenBy(s, step).Some? ==> TakenBy(s, step).value in s'.running.Values)
  {
    ChannelEffect(s, step);
    if TakenBy(s, step).Some? {
      assert Apply(s, step).running[step.w] == TakenBy(s, step).value;
    }
  }

  lemma TaskFacts(s: State, step: Step, t: Id)
    requires Inv(s) && Enabled(s, step)
    ensures TaskOk(s, t) && Distinct(s.chan.queue)
    ensures step.Finish? ==> step.w in s.running && s.running[step.w] in s.starts
    ensures step.Enqueue? ==> step.task in s.counted
    ensures step.Count? ==> step.task !in s.submitted && step.task !in s.counted
  {
  }

  lemma StepKeepsTask(s: State, step: Step, t: Id)
    requires Inv(s) && Enabled(s, step)
    ensures TaskOk(Apply(s, step), t)
  {
    hide Inv;
    hide Apply;
    hide Enabled;
    hide TakenBy;
    hide ChannelStep;
    ChannelEffect(s, step);
    RecordsEffect(s, step);
    WorkerKeepsTask(s, step, t);
    TaskFacts(s, step, t);
    var q, s' := s.chan.queue, Apply(s, step);
    assert TakenBy(s, step).Some? ==> q == [q[0]] + q[1..] && q[0] !in q[1..];
    assert t in s'.chan.queue ==> t in s'.submitted;
    assert t in s'.starts ==> t in s'.submitted && t !in s'.chan.queue;
    assert multiset(s'.starts)[t] <= 1;
  }

  /** A running task stays with its worker until it is over. */
  lemma WorkerKeepsTask(s: State, step: Step, t: Id)
    requires Inv(s) && Enabled(s, step)
    ensures t in s.running.Values ==> t in Apply(s, step).running.Values || t in Apply(s, step).finished
  {
    if t in s.running.Values {
      var s' := Apply(s, step);
      var w :| w in s.running && s.running[w] == t;
      assert step.Poll? || step.Resume? ==> step.w != w by {
        assert step.Resume? ==> Parked(s, step.w);
      }
      hide Ch.Apply;
      assert w in s'.running ==> s'.running[w] == t;
    }
  }

  lemma StepKeepsInv(s: State, step: Step)
    requires Inv(s) && Enabled(s, step)
    ensures Inv(Apply(s, step))
  {
    StepKeepsCount(s, step);
    StepKeepsChannel(s, step);
    StepKeepsRunning(s, step);
    forall w | Parked(Apply(s, step), w)
      ensures !Busy(Apply(s, step), w)
    {
      StepKeepsParked(s, step, w);
    }
    forall t
      ensures TaskOk(Apply(s, step), t)
    {
      StepKeepsTask(s, step, t);
    }
    hide TaskOk;
    hide Apply;
    hide Enabled;
  }

  // --------------------------------------------------------------------------- what the steps do

  ghost predicate Goes(s: State, step: Step, after: State) { Enabled(s, step) && after == Apply(s, step) }

  /** `pushTask` counts the task, then queues it. */
  lemma PushesTask(s: State, task: Id, notified: Option<Id>) returns (s1: State, s2: State)
    requires Inv(s) && task !in s.submitted && task !in s.counted
    requires if s.chan.waiting == map[] then notified == None else notified.Some? && notified.value in s.chan.waiting
    ensures Goes(s, Count(task), s1) && Goes(s1, Enqueue(task, notified), s2) && Inv(s2)
    ensures s1.remainingWork == s.remainingWork + 1 && s1.chan == s.chan && s1.submitted == s.submitted
    ensures s2.remainingWork == s.remainingWork + 1 && s2.chan.queue == s.chan.queue + [task]
    ensures s2.submitted == s.submitted + {task} && s2.counted == s.counted
    ensures s2.running == s.running && s2.ended == s.ended && s2.starts == s.starts && s2.finished == s.finished
  {
    StepKeepsInv(s, Count(task));
    s1 := Apply(s, Count(task));
    StepKeepsInv(s1, Enqueue(task, notified));
    s2 := Apply(s1, Enqueue(task, notified));
    hide Inv;
    assert s.counted + {task} - {task} == s.counted;
  }

  /** A worker that finds a task takes on the first one and runs it; one that finds none waits. */
  lemma TakesTask(s: State, w: Id) returns (after: State)
    requires Inv(s) && !Busy(s, w) && !Parked(s, w)
    ensures Goes(s, Poll(w), after) && Inv(after) && after.remainingWork == s.remainingWork
    ensures after.ended == s.ended && after.finished == s.finished && after.submitted == s.submitted
    ensures after.counted == s.counted
    ensures s.chan.queue != [] ==>
              && after.chan.queue == s.chan.queue[1..] && after.running == s.running[w := s.chan.queue[0]]
              && after.starts == s.starts + [s.chan.queue[0]] && !Parked(after, w)
    ensures s.chan.queue == [] ==> after.running == s.running && after.starts == s.starts && Parked(after, w)
  {
    StepKeepsInv(s, Poll(w));
    after := Apply(s, Poll(w));
    hide Inv;
  }

  /** A worker that was woken, or whose wait is over, does the same, or waits on, or goes idle. */
  lemma Resumes(s: State, w: Id) returns (after: State)
    requires Inv(s) && w in s.chan.awake
    ensures Goes(s, Resume(w), after) && Inv(after) && after.remainingWork == s.remainingWork
    ensures after.ended == s.ended && after.finished == s.finished && after.submitted == s.submitted
    ensures s.chan.queue != [] && s.chan.awake[w].0 != Ch.Watch ==>
              && after.chan.queue == s.chan.queue[1..] && after.running == s.running[w := s.chan.queue[0]]
              && after.starts == s.starts + [s.chan.queue[0]]
    ensures s.chan.queue == [] ==>
              && after.running == s.running && after.starts == s.starts
              && (w in after.chan.waiting <==> !s.chan.awake[w].1 || w in s.chan.waiting)
  {
    StepKeepsInv(s, Resume(w));
    after := Apply(s, Resume(w));
    hide Inv;
  }

  /** When the task is over the worker takes it off the count, and is free for the next one. */
  lemma EndsTask(s: State, w: Id) returns (s1: State, s2: State)
    requires Inv(s) && w in s.running
    ensures Goes(s, Finish(w), s1) && Goes(s1, Decrement(w), s2) && Inv(s2)
    ensures s1.remainingWork == s.remainingWork && s1.finished == s.finished + {s.running[w]}
    ensures s2.remainingWork == s.remainingWork - 1 && s2.finished == s.finished + {s.running[w]} && !Busy(s2, w)
    ensures s2.running == s.running - {w} && s2.ended == s.ended && s2.chan == s.chan && s2.starts == s.starts
    ensures s2.submitted == s.submitted && s2.counted == s.counted
  {
    assert w !in s.ended;
    StepKeepsInv(s, Finish(w));
    s1 := Apply(s, Finish(w));
    StepKeepsInv(s1, Decrement(w));
    s2 := Apply(s1, Decrement(w));
    hide Inv;
    assert s.ended[w := s.running[w]] - {w} == s.ended;
  }

  /** One round of a worker: the first task is taken on, runs and is taken off the count. */
  lemma RunsOne(s: State, w: Id) returns (s1: State, s2: State, s3: State)
    requires Inv(s) && !Busy(s, w) && !Parked(s, w) && s.chan.queue != []
    ensures Goes(s, Poll(w), s1) && Goes(s1, Finish(w), s2) && Goes(s2, Decrement(w), s3) && Inv(s3)
    ensures s3.chan.queue == s.chan.queue[1..] && s3.starts == s.starts + [s.chan.queue[0]]
    ensures s3.finished == s.finished + {s.chan.queue[0]} && s3.remainingWork == s.remainingWork - 1
    ensures s3.running == s.running && s3.ended == s.ended && s3.counted == s.counted
    ensures !Busy(s3, w) && !Parked(s3, w)
  {
    s1 := TakesTask(s, w);
    hide Inv;
    hide Goes;
    s2, s3 := EndsTask(s1, w);
    assert s.running[w := s.chan.queue[0]] - {w} == s.running;
  }

  ghost function Tasks(q: seq<Id>): set<Id> { set t | t in q }

  lemma QueueSplit(q: seq<Id>, starts: seq<Id>)
    requires q != []
    ensures (starts + [q[0]]) + q[1..] == starts + q
    ensures Tasks(q) == {q[0]} + Tasks(q[1..])
  {
    assert q == [q[0]] + q[1..];
  }

  ghost predicate IsChain(run: seq<State>) {
    |run| > 0 && forall i :: 0 < i < |run| ==> Next(run[i - 1], run[i])
  }

  lemma ThreeMore(s: State, s1: State, s2: State, s3: State, w: Id, rest: seq<State>)
    requires Goes(s, Poll(w), s1) && Goes(s1, Finish(w), s2) && Goes(s2, Decrement(w), s3)
    requires IsChain(rest) && rest[0] == s3
    ensures IsChain([s, s1, s2] + rest)
  {
    assert Next(s, s1) && Next(s1, s2) && Next(s2, s3);
    var run := [s, s1, s2] + rest;
    hide Next;
    hide Goes;
    forall i | 0 < i < |run|
      ensures Next(run[i - 1], run[i])
    {
      assert i > 3 ==> run[i - 1] == rest[i - 4] && run[i] == rest[i - 3] && Next(rest[i - 4], rest[i - 3]);
    }
  }

  /** Progress: one free worker, left alone, runs everything that is queued, in order, and takes it off the
      count. */
  lemma {:induction false} OneWorkerDrains(s: State, w: Id) returns (run: seq<State>)
    requires Inv(s) && !Busy(s, w) && !Parked(s, w)
    ensures IsChain(run) && run[0] == s && |run| == 1 + 3 * |s.chan.queue|
    ensures var last := run[|run| - 1];
            && Inv(last) && last.chan.queue == [] && !Busy(last, w) && !Parked(last, w)
            && last.starts == s.starts + s.chan.queue && last.remainingWork == s.remainingWork - |s.chan.queue|
            && last.running == s.running && last.ended == s.ended && last.counted == s.counted
            && last.finished == s.finished + Tasks(s.chan.queue)
    decreases |s.chan.queue|
  {
    if s.chan.queue == [] {
      run := [s];
    } else {
      var s1, s2, s3 := RunsOne(s, w);
      hide Inv;
      hide Goes;
      hide Next;
      hide Tasks;
      QueueSplit(s.chan.queue, s.starts);
      var rest := OneWorkerDrains(s3, w);
      ThreeMore(s, s1, s2, s3, w, rest);
      run := [s, s1, s2] + rest;
      assert run[|run| - 1] == rest[|rest| - 1];
    }
  }

  // -------------------------------------------------------------------------------------- runs

  ghost predicate Next(s: State, s': State) {
    exists step :: Enabled(s, step) && s' == Apply(s, step)
  }

  ghost predicate IsRun(run: seq<State>) {
    |run| > 0 && run[0] == INITIAL && forall i :: 0 < i < |run| ==> Next(run[i - 1], run[i])
  }

  lemma {:induction false} RunKeepsInv(run: seq<State>)
    requires IsRun(run)
    ensures Inv(run[|run| - 1])
  {
    var n := |run| - 1;
    if n == 0 {
      InitInv();
    } else {
      RunKeepsInv(run[..n]);
      NextKeepsInv(run[n - 1], run[n]);
    }
  }

  lemma NextKeepsInv(s: State, s': State)
    requires Inv(s) && Next(s, s')
    ensures Inv(s')
  {
    var step :| Enabled(s, step) && s' == Apply(s, step);
    StepKeepsInv(s, step);
  }

  /** The counter is exact in every interleaving, so it never underflows, and `isDoingWork` tells
      exactly whether some task is on its way. */
  lemma CounterExact(run: seq<State>)
    requires IsRun(run)
    ensures var s := run[|run| - 1];
            && s.remainingWork == |s.counted| + |s.chan.queue| + |s.running| + |s.ended|
            && (s.remainingWork > 0 <==>
                  s.counted != {} || s.chan.queue != [] || s.running != map[] || s.ended != map[])
  {
    RunKeepsInv(run);
  }

  /** Every task that was pushed runs at most once, and none that was not. */
  lemma RunsAtMostOnce(run: seq<State>, task: Id)
    requires IsRun(run)
    ensures var s := run[|run| - 1];
            multiset(s.starts)[task] <= 1 && (task in s.starts ==> task in s.submitted)
  {
    RunKeepsInv(run);
    assert TaskOk(run[|run| - 1], task);
  }

  lemma {:induction false} RunKeepsStarts(run: seq<State>)
    requires IsRun(run)
    ensures run[|run| - 1].starts == run[|run| - 1].chan.popped
  {
    var n := |run| - 1;
    if n > 0 {
      RunKeepsStarts(run[..n]);
      NextKeepsStarts(run[n - 1], run[n]);
    }
  }

  lemma NextKeepsStarts(s: State, s': State)
    requires Next(s, s') && s.starts == s.chan.popped
    ensures s'.starts == s'.chan.popped
  {
    var step :| Enabled(s, step) && s' == Apply(s, step);
    ChannelEffect(s, step);
    RecordsEffect(s, step);
  }

  /** Workers take tasks on in the order in which they were queued: those started, in that order,
      followed by those still in the queue, are those pushed. */
  lemma StartsInOrder(run: seq<State>)
    requires IsRun(run)
    ensures var s, c := run[|run| - 1], run[|run| - 1].chan;
            s.starts == c.popped && s.starts + c.queue == c.pushed
  {
    RunKeepsStarts(run);
    RunKeepsInv(run);
  }

  /** The barrier: at the instant `join` reads zero, every task whose `pushTask` had completed has
      finished running. */
  lemma JoinIsBarrier(run: seq<State>)
    requires IsRun(run) && run[|run| - 1].remainingWork == 0
    ensures run[|run| - 1].submitted <= run[|run| - 1].finished
    ensures run[|run| - 1].running == map[]
  {
    RunKeepsInv(run);
    var s := run[|run| - 1];
    assert |s.running| == 0;
    forall t | t in s.submitted
      ensures t in s.finished
    {
      assert TaskOk(s, t);
    }
  }
}
