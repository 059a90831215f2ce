/** `Channel`, a queue under a mutex with one condition variable.

    Everything a thread does between taking the mutex and giving it up (or parking on the condition
    variable, which gives it up atomically) is one step, so runs are the interleavings of any number
    of senders and receivers.  A receiver parks, is woken (by `notify_one`, spuriously, or because
    its time is up), and has to take the mutex again before it looks at the queue. */
module Channel {
  import opened Wrappers

  type Id = nat

  /** Why a thread waits: for `pop`, for `popTimeout`, or for `waitForMessages`. */
  datatype Wait = Pop | PopTimeout | Watch

  /** `popped` and `pushed` are the messages taken out and put in so far. */
  datatype State<T> = State(
    queue: seq<T>,
    waiting: map<Id, Wait>,
    awake: map<Id, (Wait, bool)>,   // woken, not yet back in; the flag says that its time is up
    pushed: seq<T>,
    popped: seq<T>)

  datatype Step<T> =
    | Push(msg: T, notified: Option<Id>)
    | Receive(r: Id, wait: Wait)    // `pop`, `popTimeout` or `waitForMessages` is called
    | TryPop                        // `tryPop`, and `popNow`, which throws on an empty queue
    | Spurious(r: Id)
    | TimeUp(r: Id)
    | Return(r: Id)                 // a woken thread has the mutex again and rechecks the queue

  ghost function Initial<T>(): State<T> { State([], map[], map[], [], []) }

  ghost predicate Enabled<T>(c: State<T>, step: Step<T>) {
    match step
    case Push(_, notified) =>
      if c.waiting == map[] then notified == None else notified.Some? && notified.value in c.waiting
    case Receive(r, _) => r !in c.waiting && r !in c.awake
    case TryPop => true
    case Spurious(r) => r in c.waiting
    case TimeUp(r) => r in c.waiting && !c.waiting[r].Pop?
    case Return(r) => r in c.awake
  }

  ghost function Wake<T>(c: State<T>, r: Id, timeUp: bool): State<T>
    requires r in c.waiting
  {
    c.(waiting := c.waiting - {r}, awake := c.awake[r := (c.waiting[r], timeUp)])
  }

  /** The message that the step hands out. */
  ghost function Taken<T>(c: State<T>, step: Step<T>): Option<T>
    requires Enabled(c, step)
  {
    var takes := match step
                 case Receive(_, wait) => !wait.Watch?
                 case TryPop => true
                 case Return(r) => !c.awake[r].0.Watch?
                 case _ => false;
    if takes && c.queue != [] then Some(c.queue[0]) else None
  }

  ghost function Apply<T>(c: State<T>, step: Step<T>): State<T>
    requires Enabled(c, step)
  {
    var taken := Taken(c, step);
    var c1 := if taken.Some? then c.(queue := c.queue[1..], popped := c.popped + [taken.value]) else c;
    match step
    case Push(msg, notified) =>
      var c2 := c.(queue := c.queue + [msg], pushed := c.pushed + [msg]);
      if notified.Some? then Wake(c2, notified.value, false) else c2
    case Receive(r, wait) => if c.queue == [] then c.(waiting := c.waiting[r := wait]) else c1
    case TryPop => c1
    case Spurious(r) => Wake(c, r, false)
    case TimeUp(r) => Wake(c, r, true)
    case Return(r) =>
      var c2 := c1.(awake := c.awake - {r});
      if c.queue == [] && !c.awake[r].1 then c2.(waiting := c.waiting[r := c.awake[r].0]) else c2
  }

  /** No thread is in `waitForMessages`. */
  ghost predicate NoWatcher<T>(c: State<T>) {
    && (forall r :: r in c.waiting ==> !c.waiting[r].Watch?)
    && (forall r :: r in c.awake ==> !c.awake[r].0.Watch?)
  }

  /** Either nobody is parked, or enough threads are on their way for all messages in the queue. */
  ghost predicate NoLostWakeup<T>(c: State<T>) {
    c.waiting == map[] || |c.awake| >= |c.queue|
  }

  ghost predicate Inv<T>(c: State<T>) {
    && c.popped + c.queue == c.pushed
    && c.waiting.Keys !! c.awake.Keys
  }

  lemma StepKeepsInv<T>(c: State<T>, step: Step<T>)
    requires Inv(c) && Enabled(c, step)
    ensures Inv(Apply(c, step))
  {
    if c.queue != [] {
      assert c.queue == [c.queue[0]] + c.queue[1..];
    }
  }

  lemma AwakeAdded<T>(c: State<T>, r: Id, timeUp: bool)
    requires c.waiting.Keys !! c.awake.Keys && r in c.waiting
    ensures |Wake(c, r, timeUp).awake| == |c.awake| + 1
  {
    assert Wake(c, r, timeUp).awake.Keys == c.awake.Keys + {r};
  }

  lemma AwakeRemoved<T>(c: State<T>, r: Id)
    requires r in c.awake
    ensures |c.awake - {r}| == |c.awake| - 1
  {
    assert (c.awake - {r}).Keys == c.awake.Keys - {r};
  }

  lemma StepKeepsNoWatcher<T>(c: State<T>, step: Step<T>)
    requires Inv(c) && Enabled(c, step) && NoWatcher(c)
    requires step.Receive? ==> !step.wait.Watch?
    ensures NoWatcher(Apply(c, step))
  {
  }

  lemma StepKeepsWakeups<T>(c: State<T>, step: Step<T>)
    requires Inv(c) && Enabled(c, step) && NoWatcher(c) && NoLostWakeup(c)
    ensures NoLostWakeup(Apply(c, step))
  {
    match step
    case Push(msg, notified) =>
      if notified.Some? {
        AwakeAdded(c.(queue := c.queue + [msg], pushed := c.pushed + [msg]), notified.value, false);
      }
    case Spurious(r) => AwakeAdded(c, r, false);
    case TimeUp(r) => AwakeAdded(c, r, true);
    case Return(r) =>
      AwakeRemoved(c, r);
      assert c.queue != [] ==> |Apply(c, step).queue| == |c.queue| - 1;
    case _ =>
  }

  // --------------------------------------------------------------------------- what the calls do

  /** Nobody starts to wait or stops waiting. */
  ghost predicate SameThreads<T>(c: State<T>, after: State<T>) {
    after.waiting == c.waiting && after.awake == c.awake
  }

  ghost predicate SameMessages<T>(c: State<T>, after: State<T>) {
    after.queue == c.queue && after.pushed == c.pushed && after.popped == c.popped
  }

  /** The first message has been handed out. */
  ghost predicate HeadTaken<T>(c: State<T>, after: State<T>) {
    c.queue != [] && after.queue == c.queue[1..] && after.popped == c.popped + [c.queue[0]] && after.pushed == c.pushed
  }

  /** `push` puts the message at the end, and takes one of the parked threads, if there are any, off the
      condition variable. */
  lemma Pushes<T>(c: State<T>, msg: T, notified: Option<Id>)
    requires if c.waiting == map[] then notified == None else notified.Some? && notified.value in c.waiting
    ensures Enabled(c, Push(msg, notified))
    ensures var after := Apply(c, Push(msg, notified));
            && after.queue == c.queue + [msg] && after.pushed == c.pushed + [msg] && after.popped == c.popped
            && (notified == None ==> SameThreads(c, after))
            && (notified.Some? ==> after.waiting == c.waiting - {notified.value}
                                   && after.awake == c.awake[notified.value := (c.waiting[notified.value], false)])
  {
  }

  /** Calls that find a message: `pop` and `popTimeout` take it and return, `waitForMessages` leaves it
      and returns.  Calls that find none park. */
  lemma Receives<T>(c: State<T>, r: Id, wait: Wait)
    requires r !in c.waiting && r !in c.awake
    ensures Enabled(c, Receive(r, wait))
    ensures var after := Apply(c, Receive(r, wait));
            && (c.queue != [] && wait != Watch ==> HeadTaken(c, after) && SameThreads(c, after))
            && (c.queue != [] && wait == Watch ==> after == c)
            && (c.queue == [] ==> SameMessages(c, after) && after.awake == c.awake
                                  && after.waiting == c.waiting[r := wait])
  {
  }

  /** `tryPop` takes the first message if there is one, and never waits. */
  lemma TriesPop<T>(c: State<T>)
    ensures Enabled(c, TryPop)
    ensures var after := Apply(c, TryPop);
            if c.queue == [] then after == c else HeadTaken(c, after) && SameThreads(c, after)
  {
  }

  /** A thread that was woken takes what it was waiting for; on an empty queue it parks again, exactly if
      its time is not up, and returns with nothing otherwise. */
  lemma Returns<T>(c: State<T>, r: Id)
    requires r in c.awake
    ensures Enabled(c, Return(r))
    ensures var after, wait, timeUp := Apply(c, Return(r)), c.awake[r].0, c.awake[r].1;
            && after.awake == c.awake - {r}
            && (c.queue != [] && wait != Watch ==> HeadTaken(c, after) && after.waiting == c.waiting)
            && (c.queue != [] && wait == Watch ==> SameMessages(c, after) && after.waiting == c.waiting)
            && (c.queue == [] ==> SameMessages(c, after)
                                  && after.waiting == if timeUp then c.waiting else c.waiting[r := wait])
  {
  }

  /** A parked thread may wake at any moment; its time can be up only if its wait is limited. */
  lemma WakesUp<T>(c: State<T>, r: Id)
    requires r in c.waiting
    ensures Enabled(c, Spurious(r)) && (Enabled(c, TimeUp(r)) <==> c.waiting[r] != Pop)
    ensures var after := Apply(c, Spurious(r));
            && SameMessages(c, after) && after.waiting == c.waiting - {r}
            && after.awake == c.awake[r := (c.waiting[r], false)]
    ensures c.waiting[r] != Pop ==>
              var after := Apply(c, TimeUp(r));
              && SameMessages(c, after) && after.waiting == c.waiting - {r}
              && after.awake == c.awake[r := (c.waiting[r], true)]
  {
  }

  /** A message pushed to a parked receiver on an empty queue is handed to it. */
  lemma HandsOver<T>(c: State<T>, r: Id, msg: T) returns (c1: State<T>, c2: State<T>)
    requires Inv(c) && c.queue == [] && r in c.waiting && c.waiting[r] != Watch
    ensures Enabled(c, Push(msg, Some(r))) && c1 == Apply(c, Push(msg, Some(r)))
    ensures Enabled(c1, Return(r)) && c2 == Apply(c1, Return(r))
    ensures c2.popped == c.popped + [msg] && c2.queue == [] && c2.waiting == c.waiting - {r} && c2.awake == c.awake
  {
    Pushes(c, msg, Some(r));
    c1 := Apply(c, Push(msg, Some(r)));
    Returns(c1, r);
    c2 := Apply(c1, Return(r));
    assert c1.awake - {r} == c.awake;
  }

  // -------------------------------------------------------------------------------------- runs

  /** Performs the steps of an interleaving one after the other. */
  ghost predicate IsRun<T>(states: seq<State<T>>, steps: seq<Step<T>>) {
    && |states| == |steps| + 1 && states[0] == Initial<T>()
    && forall i :: 0 <= i < |steps| ==> Enabled(states[i], steps[i]) && states[i + 1] == Apply(states[i], steps[i])
  }

  lemma {:induction false} RunKeepsInv<T>(states: seq<State<T>>, steps: seq<Step<T>>)
    requires IsRun(states, steps)
    ensures Inv(states[|steps|])
  {
    if steps != [] {
      var n := |steps| - 1;
      RunKeepsInv(states[..n + 1], steps[..n]);
      StepKeepsInv(states[n], steps[n]);
    }
  }

  /** First in, first out: over any run, the messages popped so far, followed by those in the queue,
      are the messages pushed, in the order they were pushed. */
  lemma Fifo<T>(states: seq<State<T>>, steps: seq<Step<T>>)
    requires IsRun(states, steps)
    ensures states[|steps|].popped + states[|steps|].queue == states[|steps|].pushed
  {
    RunKeepsInv(states, steps);
  }

  lemma {:induction false} RunKeepsWakeups<T>(states: seq<State<T>>, steps: seq<Step<T>>)
    requires IsRun(states, steps) && forall s :: s in steps && s.Receive? ==> !s.wait.Watch?
    ensures NoWatcher(states[|steps|]) && NoLostWakeup(states[|steps|])
  {
    if steps != [] {
      var n := |steps| - 1;
      assert steps[n] in steps;
      RunKeepsWakeups(states[..n + 1], steps[..n]);
      RunKeepsInv(states[..n + 1], steps[..n]);
      StepKeepsNoWatcher(states[n], steps[n]);
      StepKeepsWakeups(states[n], steps[n]);
    }
  }

  /** No lost wakeup: in any run without `waitForMessages`, a message in the queue while receivers are
      parked means that a woken receiver is on its way, and that one will take a message. */
  lemma WakeupsSuffice<T>(states: seq<State<T>>, steps: seq<Step<T>>)
    requires IsRun(states, steps) && forall s :: s in steps && s.Receive? ==> !s.wait.Watch?
    ensures var c := states[|steps|];
            && (c.waiting == map[] || |c.awake| >= |c.queue|)
            && (c.queue != [] && c.waiting != map[] ==> c.awake != map[])
            && (forall r :: r in c.awake && c.queue != [] ==> Taken(c, Return(r)) == Some(c.queue[0]))
  {
    RunKeepsWakeups(states, steps);
  }

  // ------------------------------------------------------------------------- `waitForMessages`

  /** The run in which a watcher uses up the notification and leaves the message, while a thread that
      called first, for whatever purpose, stays parked with nobody on the way. */
  lemma WatcherLosesWakeup<T>(wait: Wait, x: T) returns (states: seq<State<T>>, steps: seq<Step<T>>)
    ensures IsRun(states, steps)
    ensures steps == [Receive(1, wait), Receive(2, Watch), Push(x, Some(2)), Return(2)]
    ensures var c := states[|steps|]; c.queue == [x] && c.waiting == map[1 := wait] && c.awake == map[]
    ensures !NoLostWakeup(states[|steps|])
  {
    steps := [Receive(1, wait), Receive(2, Watch), Push(x, Some(2)), Return(2)];
    var s1 := Apply(Initial<T>(), steps[0]);
    var s2 := Apply(s1, steps[1]);
    var s3 := Apply(s2, steps[2]);
    var s4 := Apply(s3, steps[3]);
    states := [Initial<T>(), s1, s2, s3, s4];
    assert s4.waiting == map[1 := wait];
    assert s4.awake == map[];
  }

  /** The receiving calls of a run are of the given kinds. */
  ghost predicate Uses<T>(steps: seq<Step<T>>, kinds: set<Wait>) {
    forall s :: s in steps && s.Receive? ==> s.wait in kinds
  }

  /** No wakeup is lost in any run of a program exactly if that program does not call
      `waitForMessages`: whichever receiving calls it makes. */
  lemma NoLostWakeupExactly<T(!new)>(kinds: set<Wait>, x: T)
    ensures (forall states: seq<State<T>>, steps :: IsRun(states, steps) && Uses(steps, kinds) ==>
               NoLostWakeup(states[|steps|]))
       <==> Watch !in kinds
  {
    if Watch in kinds {
      var states, steps := WatcherLosesWakeup(Watch, x);
      assert Uses(steps, kinds);
    } else {
      forall states: seq<State<T>>, steps | IsRun(states, steps) && Uses(steps, kinds)
        ensures NoLostWakeup(states[|steps|])
      {
        RunKeepsWakeups(states, steps);
      }
    }
  }

  /** Threads on their way that will take a message. */
  ghost function Takers<T>(c: State<T>): set<Id> {
    set r | r in c.awake && !c.awake[r].0.Watch?
  }

  /** Some thread is parked in order to take a message. */
  ghost predicate TakerParked<T>(c: State<T>) {
    exists r :: r in c.waiting && !c.waiting[r].Watch?
  }

  /** Nobody who wants a message is parked, unless there are enough takers on the way for all messages. */
  ghost predicate Served<T>(c: State<T>) {
    !TakerParked(c) || |Takers(c)| >= |c.queue|
  }

  /** A push whose notification goes to a watcher, while a taker is parked and the takers on the way
      are just enough for the messages that were there before. */
  ghost predicate Misdirected<T>(c: State<T>, step: Step<T>)
    requires Enabled(c, step)
  {
    && step.Push? && step.notified.Some? && c.waiting[step.notified.value].Watch?
    && TakerParked(c) && |Takers(c)| == |c.queue|
  }

  lemma TakersAdded<T>(c: State<T>, r: Id, timeUp: bool)
    requires r in c.waiting && r !in c.awake
    ensures |Takers(Wake(c, r, timeUp))| == |Takers(c)| + if c.waiting[r].Watch? then 0 else 1
  {
    var after := Wake(c, r, timeUp);
    if c.waiting[r].Watch? {
      assert Takers(after) == Takers(c);
    } else {
      assert Takers(after) == Takers(c) + {r};
    }
  }

  lemma ParkedAfterWake<T>(c: State<T>, r: Id, timeUp: bool)
    requires r in c.waiting
    ensures TakerParked(Wake(c, r, timeUp)) ==> TakerParked(c)
    ensures c.waiting[r].Watch? && TakerParked(c) ==> TakerParked(Wake(c, r, timeUp))
  {
    if c.waiting[r].Watch? && TakerParked(c) {
      var p :| p in c.waiting && !c.waiting[p].Watch?;
      assert p in Wake(c, r, timeUp).waiting;
    }
  }

  lemma TakersReturned<T>(c: State<T>, r: Id)
    requires r in c.awake
    ensures |Takers(c.(awake := c.awake - {r}))| == |Takers(c)| - if c.awake[r].0.Watch? then 0 else 1
  {
    var after := c.(awake := c.awake - {r});
    if c.awake[r].0.Watch? {
      assert Takers(after) == Takers(c);
    } else {
      assert Takers(c) == Takers(after) + {r};
    }
  }

  /** A thread that was on its way and finds messages. */
  lemma ReturnKeepsServed<T>(c: State<T>, r: Id)
    requires Inv(c) && Enabled(c, Return(r)) && Served(c)
    ensures Served(Apply(c, Return(r)))
  {
    var after := Apply(c, Return(r));
    if c.queue != [] {
      TakersReturned(c, r);
      assert Takers(after) == Takers(c.(awake := c.awake - {r}));
      assert after.waiting == c.waiting;
    }
  }

  /** The exact condition, step by step: with watchers or without, every step serves the takers except
      a misdirected push. */
  lemma StepServesExactly<T>(c: State<T>, step: Step<T>)
    requires Inv(c) && Enabled(c, step) && Served(c)
    ensures Served(Apply(c, step)) <==> !Misdirected(c, step)
  {
    match step
    case Push(msg, notified) =>
      if notified.Some? {
        var pushed := c.(queue := c.queue + [msg], pushed := c.pushed + [msg]);
        assert Takers(pushed) == Takers(c) && (TakerParked(pushed) <==> TakerParked(c));
        TakersAdded(pushed, notified.value, false);
        ParkedAfterWake(pushed, notified.value, false);
      }
    case Spurious(r) => TakersAdded(c, r, false); ParkedAfterWake(c, r, false);
    case TimeUp(r) => TakersAdded(c, r, true); ParkedAfterWake(c, r, true);
    case Return(r) => ReturnKeepsServed(c, r);
    case Receive(_, _) =>
      assert c.queue != [] ==> Takers(Apply(c, step)) == Takers(c) && Apply(c, step).waiting == c.waiting;
    case TryPop =>
      assert Takers(Apply(c, step)) == Takers(c) && Apply(c, step).waiting == c.waiting;
  }

  /** And over runs: takers are served throughout exactly if no push of the run is misdirected. */
  lemma RunServesExactly<T>(states: seq<State<T>>, steps: seq<Step<T>>)
    requires IsRun(states, steps)
    ensures (forall i :: 0 <= i <= |steps| ==> Served(states[i]))
       <==> (forall i :: 0 <= i < |steps| ==> !Misdirected(states[i], steps[i]))
  {
    if forall i :: 0 <= i < |steps| ==> !Misdirected(states[i], steps[i]) {
      forall i | 0 <= i <= |steps|
        ensures Served(states[i])
      {
        ServedUntil(states, steps, i);
      }
    } else {
      var i :| 0 <= i < |steps| && Misdirected(states[i], steps[i]);
      RunKeepsInv(states[..i + 1], steps[..i]);
      if Served(states[i]) {
        StepServesExactly(states[i], steps[i]);
        assert !Served(states[i + 1]);
      }
    }
  }

  lemma {:induction false} ServedUntil<T>(states: seq<State<T>>, steps: seq<Step<T>>, n: nat)
    requires IsRun(states, steps) && n <= |steps|
    requires forall i :: 0 <= i < |steps| ==> !Misdirected(states[i], steps[i])
    ensures Served(states[n])
  {
    if n > 0 {
      ServedUntil(states, steps, n - 1);
      RunKeepsInv(states[..n], steps[..n - 1]);
      StepServesExactly(states[n - 1], steps[n - 1]);
    }
  }

  lemma {:induction false} OnlyWatchers<T>(states: seq<State<T>>, steps: seq<Step<T>>)
    requires IsRun(states, steps) && Uses(steps, {Watch})
    ensures var c := states[|steps|];
            && (forall r :: r in c.waiting ==> c.waiting[r].Watch?)
            && (forall r :: r in c.awake ==> c.awake[r].0.Watch?)
  {
    if steps != [] {
      var n := |steps| - 1;
      assert steps[n] in steps;
      OnlyWatchers(states[..n + 1], steps[..n]);
    }
  }

  /** Takers are served in all runs of a program exactly if it does not call `waitForMessages`, or calls
      nothing else that waits. */
  lemma TakersServedExactly<T(!new)>(kinds: set<Wait>, x: T)
    ensures (forall states: seq<State<T>>, steps :: IsRun(states, steps) && Uses(steps, kinds) ==>
               Served(states[|steps|]))
       <==> Watch !in kinds || kinds == {Watch}
  {
    if Watch in kinds && kinds != {Watch} {
      var wait :| wait in kinds && !wait.Watch?;
      var states, steps := WatcherLosesWakeup(wait, x);
      assert Uses(steps, kinds);
      assert TakerParked(states[|steps|]) by {
        assert 1 in states[|steps|].waiting;
      }
      assert Takers(states[|steps|]) == {};
    } else {
      forall states: seq<State<T>>, steps | IsRun(states, steps) && Uses(steps, kinds)
        ensures Served(states[|steps|])
      {
        if Watch !in kinds {
          RunKeepsWakeups(states, steps);
          assert Takers(states[|steps|]) == states[|steps|].awake.Keys;
        } else {
          OnlyWatchers(states, steps);
        }
      }
    }
  }
}
