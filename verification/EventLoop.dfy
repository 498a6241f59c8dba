/** The functor queue of the event loop: other threads and the loop's own thread push under a
    mutex and wake the loop through an eventfd; the loop swaps the queue out and runs it. */
module EventLoop {

  // A functor and what it queues in the loop when it runs
  datatype Functor = Functor(id: nat, spawns: seq<Functor>)

  // Where the loop's thread is: Outside loop(), before it or after it; Testing quit_; Entering is
  // past callingPendingFunctors_ = true, before the swap
  datatype Phase = Outside | Testing | Polling | Handling | Entering | Running

  datatype Loop = Loop(
    phase: Phase,
    pending: seq<Functor>,
    batch: seq<Functor>,     // what is left of the swapped-out functors
    executed: seq<Functor>,
    queued: seq<Functor>,    // all functors ever pushed, in the order of the mutex
    counter: nat,            // the eventfd
    between: nat,            // other threads between their push and their wakeup
    owed: bool,              // the loop's thread is between its push and its wakeup
    early: nat,              // pending functors the loop's thread queued outside loop()
    swapped: nat,            // how many had been queued at the last swap
    quit: bool
  )

  datatype Step =
    | Push(f: Functor)          // another thread in queueInLoop, up to the end of its locked block
    | Wake                      // the wakeup of such a thread
    | AskQuit                   // quit() by another thread, up to its wakeup
    | QueueOwn(f: Functor)      // queueInLoop on the loop's thread, likewise
    | WakeOwn
    | QuitOwn
    | Begin                     // loop() is entered, up to quit_ = false
    | Test                      // while (!quit_)
    | PollReturns
    | HandleRead                // the eventfd is read
    | EndHandling
    | Swap
    | RunNext
    | EndRunning

  const INITIAL: Loop := Loop(Outside, [], [], [], [], 0, 0, false, 0, 0, false)

  predicate Enabled(s: Loop, step: Step) {
    match step
    case Push(_) => true
    case Wake => s.between > 0
    case AskQuit => true
    case QueueOwn(_) => !s.owed && (s.phase.Outside? || s.phase.Handling? || s.phase.Running?)
    case WakeOwn => s.owed
    case QuitOwn => !s.owed && (s.phase.Outside? || s.phase.Handling? || s.phase.Running?)
    case Begin => s.phase.Outside?
    case Test => s.phase.Testing?
    case PollReturns => s.phase.Polling?
    case HandleRead => s.phase.Handling?
    case EndHandling => s.phase.Handling?
    case Swap => s.phase.Entering?
    case RunNext => s.phase.Running? && !s.owed && s.batch != []
    case EndRunning => s.phase.Running? && !s.owed && s.batch == []
  }

  function Next(s: Loop, step: Step): Loop
    requires Enabled(s, step)
  {
    match step
    case Push(f) => s.(pending := s.pending + [f], queued := s.queued + [f], between := s.between + 1)
    case Wake => s.(between := s.between - 1, counter := s.counter + 1)
    case AskQuit => s.(quit := true, between := s.between + 1)
    case QueueOwn(f) =>
      s.(pending := s.pending + [f], queued := s.queued + [f], owed := s.phase.Running?,
         early := if s.phase.Outside? then s.early + 1 else s.early)
    case WakeOwn => s.(owed := false, counter := s.counter + 1)
    case QuitOwn => s.(quit := true)
    case Begin => s.(phase := Testing, quit := false)
    case Test => s.(phase := if s.quit then Outside else Polling)
    case PollReturns => s.(phase := Handling)
    case HandleRead => s.(counter := 0)
    case EndHandling => s.(phase := Entering)
    case Swap => s.(phase := Running, batch := s.pending, pending := [], early := 0, swapped := |s.queued|)
    case RunNext => s.(executed := s.executed + [s.batch[0]], batch := s.batch[1..])
    case EndRunning => s.(phase := Testing)
  }

  predicate Follows(s: Loop, steps: seq<Step>)
    decreases |steps|
  {
    steps == [] || (Enabled(s, steps[0]) && Follows(Next(s, steps[0]), steps[1..]))
  }

  function Run(s: Loop, steps: seq<Step>): Loop
    requires Follows(s, steps)
    decreases |steps|
  {
    if steps == [] then s else Run(Next(s, steps[0]), steps[1..])
  }

  // Somebody's wakeup has come or is still to come
  predicate Roused(s: Loop) {
    s.counter > 0 || s.between > 0 || s.owed
  }

  predicate Inv(s: Loop) {
    && s.executed + s.batch + s.pending == s.queued
    && |s.executed| + |s.batch| == s.swapped
    && (!s.phase.Running? ==> s.batch == [] && !s.owed)
    && s.early <= |s.pending|
    && (s.phase.Running? ==> s.early == 0)
    && (!s.phase.Handling? && !s.phase.Entering? ==> |s.pending| > s.early ==> Roused(s))
    && (s.phase.Polling? && s.quit ==> Roused(s))
  }

  lemma StepInv(s: Loop, step: Step)
    requires Inv(s) && Enabled(s, step)
    ensures Inv(Next(s, step))
  {
    if step.RunNext? {
      assert s.batch == [s.batch[0]] + s.batch[1..];
    } else if step.Swap? {
      assert s.executed + s.batch + s.pending == s.executed + s.pending + [];
    } else if step.Push? || step.QueueOwn? {
      assert s.executed + s.batch + (s.pending + [step.f]) == s.executed + s.batch + s.pending + [step.f];
    }
  }

  lemma {:induction false} RunInv(s: Loop, steps: seq<Step>)
    requires Inv(s) && Follows(s, steps)
    ensures Inv(Run(s, steps))
    decreases |steps|
  {
    if steps != [] {
      StepInv(s, steps[0]);
      RunInv(Next(s, steps[0]), steps[1..]);
    }
  }

  /** Over every interleaving: nothing is lost, repeated or reordered, and the loop never enters
      poll over a functor, other than one its own thread queued outside loop(), or over a quit
      asked for since it began, unless it is woken or about to be. */
  lemma NoStrandedFunctor(steps: seq<Step>)
    requires Follows(INITIAL, steps)
    ensures var s := Run(INITIAL, steps);
            && s.executed + s.batch + s.pending == s.queued
            && (s.phase.Polling? && (|s.pending| > s.early || s.quit) ==> s.counter > 0 || s.between > 0)
  {
    RunInv(INITIAL, steps);
  }

  // A loop past poll, before its swap, or past a swap that took the first n, stays one
  lemma {:induction false} Served(s: Loop, steps: seq<Step>, n: nat)
    requires Inv(s) && Follows(s, steps) && n <= |s.queued|
    requires s.phase.Handling? || s.phase.Entering? || n <= s.swapped
    ensures var t := Run(s, steps);
            && (t.phase.Handling? || t.phase.Entering? || n <= t.swapped)
            && s.queued <= t.queued
    decreases |steps|
  {
    if steps != [] {
      StepInv(s, steps[0]);
      Served(Next(s, steps[0]), steps[1..], n);
    }
  }

  /** One turn is enough: once poll has returned and the loop has come back to its test, every
      functor queued before is executed, in order, the early ones too. */
  lemma TurnRunsAll(s: Loop, steps: seq<Step>)
    requires Inv(s) && s.phase.Polling? && Follows(Next(s, PollReturns), steps)
    requires var t := Run(Next(s, PollReturns), steps); t.phase.Testing? || t.phase.Polling? || t.phase.Outside?
    ensures s.queued <= Run(Next(s, PollReturns), steps).executed
  {
    var h := Next(s, PollReturns);
    StepInv(s, PollReturns);
    RunInv(h, steps);
    Served(h, steps, |s.queued|);
    var t := Run(h, steps);
    assert t.executed == t.queued[..t.swapped];
  }

  function FunctorsOf(steps: seq<Step>): seq<Functor> {
    if steps == [] then []
    else (if steps[0].Push? || steps[0].QueueOwn? then [steps[0].f] else []) + FunctorsOf(steps[1..])
  }

  lemma FunctorsFirst(steps: seq<Step>)
    requires steps != []
    ensures FunctorsOf(steps) == FunctorsOf([steps[0]]) + FunctorsOf(steps[1..])
  {}

  predicate Rouses(step: Step) {
    step.Push? || step.AskQuit?
  }

  predicate BeforePollReturns(s: Loop) {
    s.phase.Outside? || s.phase.Testing? || s.phase.Polling?
  }

  predicate SomeRouses(steps: seq<Step>) {
    exists i :: 0 <= i < |steps| && Rouses(steps[i])
  }

  lemma NoneRouses()
    ensures !SomeRouses([])
  {}

  lemma SomeRousesRest(steps: seq<Step>)
    requires steps != []
    ensures SomeRouses(steps) <==> Rouses(steps[0]) || SomeRouses(steps[1..])
  {
    if i :| 0 < i < |steps| && Rouses(steps[i]) {
      assert Rouses(steps[1..][i - 1]);
    }
  }

  lemma EarlyStep(s: Loop, step: Step)
    requires Inv(s) && BeforePollReturns(s) && Enabled(s, step) && !step.PollReturns?
    ensures var t := Next(s, step);
            && Inv(t) && BeforePollReturns(t) && t.executed == s.executed
            && t.pending == s.pending + FunctorsOf([step])
            && (Roused(t) <==> Roused(s) || Rouses(step))
  {
    StepInv(s, step);
  }

  /** The exception, exactly: until poll first returns nothing is executed, whatever has been
      queued, and the loop is woken just when it was before or another thread has pushed or asked
      it to quit. Functors of the loop's own thread alone wait for poll to return by itself. */
  lemma {:induction false} EarlyFunctorsWait(s: Loop, steps: seq<Step>)
    requires Inv(s) && BeforePollReturns(s) && Follows(s, steps)
    requires forall i :: 0 <= i < |steps| ==> !steps[i].PollReturns?
    ensures var t := Run(s, steps);
            && BeforePollReturns(t) && t.executed == s.executed && t.pending == s.pending + FunctorsOf(steps)
            && (Roused(t) <==> Roused(s) || SomeRouses(steps))
    decreases |steps|
  {
    hide Inv, Next, Enabled, Roused, Rouses, SomeRouses, BeforePollReturns;
    if steps == [] {
      NoneRouses();
    } else {
      EarlyStep(s, steps[0]);
      EarlyFunctorsWait(Next(s, steps[0]), steps[1..]);
      SomeRousesRest(steps);
      FunctorsFirst(steps);
    }
  }

  // Such a wait is reached
  lemma EarlyFunctorWaits(f: Functor)
    ensures var steps := [QueueOwn(f), Begin, Test];
            && Follows(INITIAL, steps)
            && Run(INITIAL, steps).phase.Polling? && Run(INITIAL, steps).pending == [f]
            && !Roused(Run(INITIAL, steps))
  {
    var s1 := Next(INITIAL, QueueOwn(f));
    var s2 := Next(s1, Begin);
    assert [QueueOwn(f), Begin, Test][1..] == [Begin, Test] && [Begin, Test][1..] == [Test];
    assert Follows(s2, [Test]) && Run(s2, [Test]) == Next(s2, Test);
    assert Follows(s1, [Begin, Test]) && Run(s1, [Begin, Test]) == Run(s2, [Test]);
  }

  // ---- quit ----

  predicate Quits(step: Step) {
    step.AskQuit? || step.QuitOwn?
  }

  predicate NoBegin(steps: seq<Step>) {
    forall i :: 0 <= i < |steps| ==> !steps[i].Begin?
  }

  // As long as loop() is not entered anew, the flag says whether a quit has been asked for
  lemma {:induction false} QuitRemembered(s: Loop, steps: seq<Step>)
    requires Follows(s, steps) && NoBegin(steps)
    ensures Run(s, steps).quit <==> s.quit || exists i :: 0 <= i < |steps| && Quits(steps[i])
    ensures (s.phase.Outside? ==> s.quit) && Run(s, steps).phase.Outside? ==> Run(s, steps).quit
    decreases |steps|
  {
    if steps != [] {
      var rest := steps[1..];
      assert forall i :: 0 <= i < |rest| ==> rest[i] == steps[i + 1];
      QuitRemembered(Next(s, steps[0]), rest);
      assert (exists i :: 0 <= i < |steps| && Quits(steps[i])) <==>
             Quits(steps[0]) || exists i :: 0 <= i < |rest| && Quits(rest[i]);
    }
  }

  /** A quit asked for before loop() is forgotten, whoever asked: once loop() has been entered it
      returns only if a quit was asked for since, be it before the first test of the flag. */
  lemma EarlyQuitForgotten(s: Loop, steps: seq<Step>)
    requires s.phase.Outside? && Follows(Next(s, Begin), steps) && NoBegin(steps)
    ensures var t := Run(Next(s, Begin), steps);
            && (t.quit <==> exists i :: 0 <= i < |steps| && Quits(steps[i]))
            && (t.phase.Outside? ==> t.quit)
  {
    QuitRemembered(Next(s, Begin), steps);
  }

  /** A quit asked for since then ends the loop at its next test: no turn begins after it. */
  lemma {:induction false} QuitEnds(s: Loop, steps: seq<Step>)
    requires s.quit && Follows(s, steps) && NoBegin(steps)
    ensures (exists i :: 0 <= i < |steps| && steps[i].Test?) ==> Run(s, steps).phase.Outside?
    ensures s.phase.Outside? ==> Run(s, steps).phase.Outside?
    decreases |steps|
  {
    if steps != [] {
      var rest := steps[1..];
      assert forall i :: 0 <= i < |rest| ==> rest[i] == steps[i + 1];
      QuitEnds(Next(s, steps[0]), rest);
      if i :| 0 <= i < |steps| && steps[i].Test? {
        assert i == 0 || rest[i - 1].Test?;
      }
    }
  }

  // ---- the class, each method a run of the steps above ----

  class EventLoop {
    var looping: bool
    var quit: bool
    var callingPendingFunctors: bool
    var pendingFunctors: seq<Functor>
    var eventfd: nat
    ghost var s: Loop

    ghost predicate Valid()
      reads this
    {
      && Inv(s) && pendingFunctors == s.pending && eventfd == s.counter && quit == s.quit
      && !s.owed && s.between == 0  // every wakeup due has been made
      && (callingPendingFunctors <==> s.phase.Running? || s.phase.Entering?)
      && (looping <==> !s.phase.Outside?)
    }

    constructor ()
      ensures Valid() && s == INITIAL
    {
      looping, quit, callingPendingFunctors, pendingFunctors, eventfd, s := false, false, false, [], 0, INITIAL;
    }

    method Wakeup()
      modifies `eventfd
      ensures eventfd == old(eventfd) + 1
    {
      eventfd := eventfd + 1;
    }

    method QueueInLoop(f: Functor, isInLoopThread: bool)
      requires Valid() && (isInLoopThread ==> Enabled(s, QueueOwn(f)))
      modifies `pendingFunctors, `eventfd, `s
      ensures Valid() && s.queued == old(s.queued) + [f] && s.phase == old(s.phase)
      ensures s.executed == old(s.executed) && s.batch == old(s.batch)
      ensures pendingFunctors == old(pendingFunctors) + [f]
      ensures eventfd == old(eventfd) + if !isInLoopThread || callingPendingFunctors then 1 else 0
    {
      ghost var push := if isInLoopThread then QueueOwn(f) else Push(f);
      ghost var wake := if isInLoopThread then WakeOwn else Wake;
      StepInv(s, push);
      s := Next(s, push);
      pendingFunctors := pendingFunctors + [f];
      if !isInLoopThread || callingPendingFunctors {
        StepInv(s, wake);
        s := Next(s, wake);
        Wakeup();
      }
    }

    // On the loop's thread the functor runs at once, and the queue only sees what it queues
    method RunInLoop(f: Functor, isInLoopThread: bool)
      requires Valid() && (isInLoopThread ==> Enabled(s, QueueOwn(f)))
      modifies `pendingFunctors, `eventfd, `s
      ensures Valid() && s.phase == old(s.phase) && s.executed == old(s.executed) && s.batch == old(s.batch)
      ensures pendingFunctors == old(pendingFunctors) + if isInLoopThread then f.spawns else [f]
      ensures s.queued == old(s.queued) + if isInLoopThread then f.spawns else [f]
      ensures eventfd == old(eventfd) + if !isInLoopThread then 1 else if callingPendingFunctors then |f.spawns| else 0
    {
      if isInLoopThread {
        QueueSpawns(f);
      } else {
        QueueInLoop(f, false);
      }
    }

    method HandleRead()
      requires Valid() && s.phase.Handling?
      modifies `eventfd, `s
      ensures Valid() && eventfd == 0 && s == Next(old(s), Step.HandleRead)
    {
      StepInv(s, Step.HandleRead);
      s := Next(s, Step.HandleRead);
      eventfd := 0;
    }

    method QueueSpawns(f: Functor)
      requires Valid() && (s.phase.Outside? || s.phase.Handling? || s.phase.Running?)
      modifies `pendingFunctors, `eventfd, `s
      ensures Valid() && s.phase == old(s.phase) && s.executed == old(s.executed) && s.batch == old(s.batch)
      ensures pendingFunctors == old(pendingFunctors) + f.spawns && s.queued == old(s.queued) + f.spawns
      ensures eventfd == old(eventfd) + if callingPendingFunctors then |f.spawns| else 0
    {
      for i := 0 to |f.spawns|
        invariant Valid() && s.phase == old(s.phase) && s.executed == old(s.executed) && s.batch == old(s.batch)
        invariant pendingFunctors == old(pendingFunctors) + f.spawns[..i] && s.queued == old(s.queued) + f.spawns[..i]
        invariant eventfd == old(eventfd) + if callingPendingFunctors then i else 0
      {
        QueueInLoop(f.spawns[i], true);
      }
      assert f.spawns[..|f.spawns|] == f.spawns;
    }

    // The functors swapped out, one after another
    method RunBatch(functors: seq<Functor>)
      requires Valid() && s.phase.Running? && s.batch == functors && pendingFunctors == []
      modifies `pendingFunctors, `eventfd, `s
      ensures Valid() && s.phase.Running? && s.batch == []
      ensures s.executed == old(s.executed) + functors
      ensures pendingFunctors == AllSpawns(functors) && s.queued == old(s.queued) + pendingFunctors
      ensures eventfd == old(eventfd) + |pendingFunctors|
    {
      for i := 0 to |functors|
        invariant Valid() && s.phase.Running? && s.batch == functors[i..]
        invariant s.executed == old(s.executed) + functors[..i]
        invariant pendingFunctors == AllSpawns(functors[..i])
        invariant eventfd == old(eventfd) + |pendingFunctors|
      {
        StepInv(s, RunNext);
        s := Next(s, RunNext);
        AllSpawnsMore(functors, i);
        QueueSpawns(functors[i]);
      }
      assert functors[..|functors|] == functors;
      assert s.queued == s.executed + [] + pendingFunctors;
      assert old(s.queued) == old(s.executed) + functors + [];
    }

    method Quit(isInLoopThread: bool)
      requires Valid() && (isInLoopThread ==> Enabled(s, QuitOwn))
      modifies `quit, `eventfd, `s
      ensures Valid() && quit && s.phase == old(s.phase) && s.queued == old(s.queued)
      ensures s.executed == old(s.executed) && s.batch == old(s.batch) && s.pending == old(s.pending)
      ensures eventfd == old(eventfd) + if isInLoopThread then 0 else 1
    {
      ghost var ask := if isInLoopThread then QuitOwn else AskQuit;
      StepInv(s, ask);
      s := Next(s, ask);
      quit := true;
      if !isInLoopThread {
        StepInv(s, Wake);
        s := Next(s, Wake);
        Wakeup();
      }
    }

    // Runs what was queued, and leaves what that queued in its turn, announced by the eventfd
    method DoPendingFunctors()
      requires Valid() && s.phase.Handling?
      modifies `callingPendingFunctors, `pendingFunctors, `eventfd, `s
      ensures Valid() && s.phase.Testing? && quit == old(quit)
      ensures s.executed == old(s.executed) + old(pendingFunctors)
      ensures pendingFunctors == AllSpawns(old(pendingFunctors)) && s.queued == old(s.queued) + pendingFunctors
      ensures eventfd == old(eventfd) + |AllSpawns(old(pendingFunctors))|
    {
      StepInv(s, EndHandling);
      s := Next(s, EndHandling);
      callingPendingFunctors := true;
      StepInv(s, Swap);
      s := Next(s, Swap);
      var functors := pendingFunctors;
      pendingFunctors := [];
      RunBatch(functors);
      StepInv(s, EndRunning);
      s := Next(s, EndRunning);
      callingPendingFunctors := false;
    }

    // loop(), up to its first test
    method BeginLoop()
      requires Valid() && !looping
      modifies `looping, `quit, `s
      ensures Valid() && looping && !quit && s == Next(old(s), Begin)
    {
      StepInv(s, Begin);
      s := Next(s, Begin);
      looping, quit := true, false;
    }

    // The test of its while, and its end
    method TestQuit() returns (again: bool)
      requires Valid() && s.phase.Testing?
      modifies `looping, `s
      ensures Valid() && again == !quit == looping && s == Next(old(s), Test)
    {
      StepInv(s, Test);
      s := Next(s, Test);
      again := !quit;
      looping := again;
    }
  }

  function AllSpawns(fs: seq<Functor>): seq<Functor> {
    if fs == [] then [] else AllSpawns(fs[..|fs| - 1]) + fs[|fs| - 1].spawns
  }

  lemma AllSpawnsMore(fs: seq<Functor>, i: nat)
    requires i < |fs|
    ensures AllSpawns(fs[..i + 1]) == AllSpawns(fs[..i]) + fs[i].spawns
  {
    assert fs[..i + 1][..i] == fs[..i];
  }
}
