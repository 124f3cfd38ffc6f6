/**
 MessageLoopThread as a protocol: any number of callers run StartUp, ShutDown and
 DoInThread, and each thread they start runs Run. Every section under the API
 mutex is one step; so are the waits for the promise, the run loop and the join.
 */
module MessageLoopThread {
  import opened Options

  type Caller = nat
  type Worker = nat

  /** How far a started thread is in Run. */
  datatype Phase = Spawned | Running | Stopping | Finished

  /** Where a caller is: waiting for the promise, about to join, or about to delete the thread object. */
  datatype Pc = Idle | AwaitStart(worker: Worker) | Joining | Joined

  datatype State = State(
    thread: Option<Worker>,
    messageLoop: Option<Worker>,
    runLoop: Option<Worker>,
    threadId: Option<Worker>,
    shuttingDown: bool,
    quit: bool,                  // QuitWhenIdle has been called on the run loop
    phases: map<Worker, Phase>,  // every thread ever started
    joined: set<Worker>,
    freed: set<Worker>,
    pcs: map<Caller, Pc>,
    fault: bool)                 // a null dereference, a second join, a bad delete, a lost loop

  datatype Action =
    | StartUp(caller: Caller)
    | ReturnFromStartUp(caller: Caller)
    | ShutDown(caller: Caller)
    | Join(caller: Caller)
    | Reclaim(caller: Caller)
    | Publish(worker: Worker)
    | LeaveLoop(worker: Worker)
    | Clear(worker: Worker)

  const INITIAL := State(None, None, None, None, false, false, map[], {}, {}, map[], false)

  function PcOf(s: State, c: Caller): Pc {
    if c in s.pcs then s.pcs[c] else Idle
  }

  predicate PhaseIs(s: State, w: Worker, p: Phase) {
    w in s.phases && s.phases[w] == p
  }

  /** DoInThreadDelayed: the loop the task is handed to, or None when the post is refused. */
  function Post(s: State): Option<Worker> {
    s.messageLoop
  }

  /** IsRunning. */
  predicate IsRunning(s: State) {
    s.threadId.Some?
  }

  predicate Enabled(s: State, a: Action) {
    match a
    case StartUp(c) => PcOf(s, c) == Idle
    case ReturnFromStartUp(c) => PcOf(s, c).AwaitStart? && !PhaseIs(s, PcOf(s, c).worker, Spawned)
    case ShutDown(c) => PcOf(s, c) == Idle
    case Join(c) => PcOf(s, c) == Joining && (s.thread.Some? ==> PhaseIs(s, s.thread.value, Finished))
    case Reclaim(c) => PcOf(s, c) == Joined
    case Publish(w) => PhaseIs(s, w, Spawned)
    case LeaveLoop(w) => PhaseIs(s, w, Running) && (s.runLoop == Some(w) ==> s.quit)
    case Clear(w) => PhaseIs(s, w, Stopping)
  }

  function Next(s: State, a: Action): State {
    match a
    case StartUp(c) =>
      if s.thread.Some? then s
      else
        var w := |s.phases|;
        s.(thread := Some(w), phases := s.phases[w := Spawned], pcs := s.pcs[c := AwaitStart(w)],
           fault := s.fault || w in s.phases)
    case ReturnFromStartUp(c) => s.(pcs := s.pcs[c := Idle])
    case ShutDown(c) =>
      if s.thread.None? || s.messageLoop.None? || s.shuttingDown then s
      else s.(shuttingDown := true, quit := true, pcs := s.pcs[c := Joining], fault := s.fault || s.runLoop.None?)
    case Join(c) =>
      if s.thread.None? then s.(fault := true)
      else
        s.(joined := s.joined + {s.thread.value}, pcs := s.pcs[c := Joined],
           fault := s.fault || s.thread.value in s.joined)
    case Reclaim(c) =>
      if s.thread.None? then s.(fault := true)
      else
        s.(freed := s.freed + {s.thread.value}, thread := None, shuttingDown := false, pcs := s.pcs[c := Idle],
           fault := s.fault || s.thread.value !in s.joined || s.thread.value in s.freed)
    case Publish(w) =>
      s.(messageLoop := Some(w), runLoop := Some(w), threadId := Some(w), quit := false,
         phases := s.phases[w := Running],
         fault := s.fault || s.messageLoop.Some? || s.runLoop.Some? || s.threadId.Some?)
    case LeaveLoop(w) => s.(phases := s.phases[w := Stopping], fault := s.fault || s.runLoop != Some(w))
    case Clear(w) =>
      s.(messageLoop := None, runLoop := None, threadId := None, quit := false, phases := s.phases[w := Finished],
         fault := s.fault || s.messageLoop != Some(w) || s.runLoop != Some(w))
  }

  // ---------- the invariant ----------

  predicate InLoop(s: State, w: Worker) {
    PhaseIs(s, w, Running) || PhaseIs(s, w, Stopping)
  }

  predicate Committed(s: State, c: Caller) {
    PcOf(s, c) == Joining || PcOf(s, c) == Joined
  }

  /** Loop, run loop and thread id belong together, and to the one live worker. */
  ghost predicate OneLiveWorker(s: State) {
    && s.messageLoop == s.runLoop == s.threadId
    && (forall w :: w in s.phases ==> w < |s.phases|)
    && (forall w :: w in s.phases && s.thread != Some(w) ==> s.phases[w] == Finished && w in s.freed)
    && s.freed <= s.joined <= s.phases.Keys
    && (s.thread.None? ==> s.messageLoop.None?)
    && (s.thread.Some? ==>
          && s.thread.value in s.phases && s.thread.value !in s.freed
          && s.messageLoop == if InLoop(s, s.thread.value) then s.thread else None)
  }

  /** Exactly one caller has committed to joining and freeing the worker while it shuts down. */
  ghost predicate OneReclaimer(s: State) {
    && (forall c, d :: Committed(s, c) && Committed(s, d) ==> c == d)
    && (s.shuttingDown <==> exists c :: Committed(s, c))
    && (s.shuttingDown ==> s.thread.Some? && s.thread.value in s.phases && s.phases[s.thread.value] != Spawned)
    && (s.thread.Some? && (PhaseIs(s, s.thread.value, Stopping) || PhaseIs(s, s.thread.value, Finished)) ==>
          s.shuttingDown)
    && (s.quit ==> s.shuttingDown && s.thread.Some? && InLoop(s, s.thread.value))
    && (s.shuttingDown && PhaseIs(s, s.thread.value, Running) ==> s.quit)
    && (forall c :: PcOf(s, c) == Joining ==> s.thread.Some? && s.thread.value !in s.joined)
    && (forall c :: PcOf(s, c) == Joined ==>
          s.thread.Some? && s.thread.value in s.joined && PhaseIs(s, s.thread.value, Finished))
    && (forall c :: PcOf(s, c).AwaitStart? ==> PcOf(s, c).worker in s.phases)
    && (s.thread.Some? && s.thread.value in s.joined ==> exists c :: PcOf(s, c) == Joined)
  }

  ghost predicate Inv(s: State) {
    !s.fault && OneLiveWorker(s) && OneReclaimer(s)
  }

  lemma {:induction false} StepKeepsInv(s: State, a: Action)
    requires Inv(s) && Enabled(s, a)
    ensures Inv(Next(s, a))
  {
    StepKeepsWorker(s, a);
    if a.Publish? || a.LeaveLoop? || a.Clear? {
      WorkerKeepsReclaimer(s, a);
    } else if Next(s, a) != s {
      CallerKeepsReclaimer(s, a);
    }
  }

  lemma {:induction false} StepKeepsWorker(s: State, a: Action)
    requires Inv(s) && Enabled(s, a)
    ensures !Next(s, a).fault && OneLiveWorker(Next(s, a))
  {
    if a.Join? || a.Reclaim? { assert Committed(s, a.caller); }
  }

  lemma {:induction false} WorkerKeepsReclaimer(s: State, a: Action)
    requires Inv(s) && Enabled(s, a) && (a.Publish? || a.LeaveLoop? || a.Clear?)
    ensures OneReclaimer(Next(s, a))
  {
    var s' := Next(s, a);
    forall c ensures PcOf(s', c) == PcOf(s, c) && Committed(s', c) == Committed(s, c) {}
    if s.shuttingDown {
      var c :| Committed(s, c);
      assert Committed(s', c);
    }
    if s.thread.Some? && s.thread.value in s.joined {
      var c :| PcOf(s, c) == Joined;
      assert PcOf(s', c) == Joined;
    }
  }

  lemma {:induction false} CallerKeepsReclaimer(s: State, a: Action)
    requires Inv(s) && Enabled(s, a) && !a.Publish? && !a.LeaveLoop? && !a.Clear? && Next(s, a) != s
    ensures OneReclaimer(Next(s, a))
  {
    var s', me := Next(s, a), a.caller;
    forall c | c != me ensures PcOf(s', c) == PcOf(s, c) && Committed(s', c) == Committed(s, c) {}
    assert Committed(s, me) <==> a.Join? || a.Reclaim?;
    assert Committed(s', me) <==> a.Join? || a.ShutDown?;
    if a.StartUp? || a.ReturnFromStartUp? {
      if s.shuttingDown {
        var c :| Committed(s, c);
        assert Committed(s', c);
      }
      if s.thread.Some? && s.thread.value in s.joined {
        var c :| PcOf(s, c) == Joined;
        assert PcOf(s', c) == Joined;
      }
    } else {
      forall c | c != me ensures !Committed(s', c) {}
      if a.Join? { assert PcOf(s', me) == Joined; }
    }
  }

  // ---------- every run ----------

  /** The state after a run of enabled steps, or None when a step was not enabled. */
  ghost function Run(actions: seq<Action>): Option<State> {
    if actions == [] then Some(INITIAL)
    else
      var before, a := Run(actions[..|actions| - 1]), actions[|actions| - 1];
      if before.Some? && Enabled(before.value, a) then Some(Next(before.value, a)) else None
  }

  /** Whatever the callers do and however the steps interleave, the invariant holds. */
  lemma {:induction false} AlwaysInv(actions: seq<Action>)
    requires Run(actions).Some?
    ensures Inv(Run(actions).value)
  {
    if actions == [] {
      assert forall c :: PcOf(INITIAL, c) == Idle;
    } else {
      AlwaysInv(actions[..|actions| - 1]);
      StepKeepsInv(Run(actions[..|actions| - 1]).value, actions[|actions| - 1]);
    }
  }

  /**
   In every reachable state nothing has gone wrong, there is at most one worker
   that has not been freed, its three fields are set and cleared together, a
   posted task reaches that worker while it runs, and a worker that has left its
   loop has exactly one caller bound to join and free it.
   */
  lemma {:induction false} SafeInEveryRun(actions: seq<Action>, v: Worker, w: Worker)
    requires Run(actions).Some?
    ensures var s := Run(actions).value;
            && !s.fault
            && (v in s.phases && v !in s.freed && w in s.phases && w !in s.freed ==> v == w)
            && (s.messageLoop.Some? <==> s.runLoop.Some?) && (s.messageLoop.Some? <==> IsRunning(s))
            && (Post(s) == Some(w) <==> s.thread == Some(w) && InLoop(s, w))
            && (w in s.joined ==> PhaseIs(s, w, Finished))
            && ((PhaseIs(s, w, Stopping) || PhaseIs(s, w, Finished)) && w !in s.freed ==>
                  s.shuttingDown && exists c :: Committed(s, c) && forall d :: Committed(s, d) ==> d == c)
  {
    AlwaysInv(actions);
    var s := Run(actions).value;
    if w in s.joined && s.thread == Some(w) {
      var c :| PcOf(s, c) == Joined;
    }
    if s.shuttingDown {
      var c :| Committed(s, c);
      assert forall d :: Committed(s, d) ==> d == c;
    }
  }

  /** A post is refused exactly when there is no thread, or it is still coming up or has finished. */
  lemma {:induction false} PostRefusedIff(actions: seq<Action>)
    requires Run(actions).Some?
    ensures var s := Run(actions).value;
            && (Post(s).None? <==>
                  s.thread.None? || PhaseIs(s, s.thread.value, Spawned) || PhaseIs(s, s.thread.value, Finished))
            && (Post(s).Some? <==> IsRunning(s))
  {
    AlwaysInv(actions);
    var s := Run(actions).value;
    if s.thread.Some? { SafeInEveryRun(actions, s.thread.value, s.thread.value); }
  }

  // ---------- no call waits for ever ----------

  /** Steps that finish work already under way. */
  predicate Internal(a: Action) {
    !a.StartUp? && !a.ShutDown?
  }

  ghost function Waiting(s: State): set<Caller> {
    set c | c in s.pcs && s.pcs[c] != Idle
  }

  ghost function JoiningCallers(s: State): set<Caller> {
    set c | c in s.pcs && s.pcs[c] == Joining
  }

  function PhaseRank(p: Phase): nat {
    match p case Spawned => 3 case Running => 2 case Stopping => 1 case Finished => 0
  }

  ghost function WorkLeft(s: State): nat {
    |Waiting(s)| + |JoiningCallers(s)| +
    if s.thread.Some? && s.thread.value in s.phases then PhaseRank(s.phases[s.thread.value]) else 0
  }

  /** A caller that waits is never stuck: some step that finishes work can be taken. */
  lemma {:induction false} SomeStepEnabled(s: State) returns (a: Action)
    requires Inv(s) && Waiting(s) != {}
    ensures Internal(a) && Enabled(s, a)
  {
    var c :| c in Waiting(s);
    assert PcOf(s, c) == s.pcs[c];
    match PcOf(s, c)
    case AwaitStart(w) => a := if PhaseIs(s, w, Spawned) then Publish(w) else ReturnFromStartUp(c);
    case Joining =>
      assert Committed(s, c);
      var w := s.thread.value;
      a := match s.phases[w] case Running => LeaveLoop(w) case Stopping => Clear(w) case _ => Join(c);
    case Joined => a := Reclaim(c);
  }

  /** And every such step leaves less work. */
  lemma {:induction false} InternalStepProgresses(s: State, a: Action)
    requires Inv(s) && Internal(a) && Enabled(s, a)
    ensures WorkLeft(Next(s, a)) < WorkLeft(s)
  {
    if a.Publish? || a.LeaveLoop? || a.Clear? {
      assert s.thread == Some(a.worker);
    } else {
      assert PcOf(s, a.caller) == s.pcs[a.caller];
      CallerMoves(s, Next(s, a), a.caller);
    }
  }

  /** A caller that moves on from where it waits. */
  lemma {:induction false} CallerMoves(s: State, s': State, c: Caller)
    requires c in s.pcs && s.pcs[c] != Idle && c in s'.pcs && s'.pcs == s.pcs[c := s'.pcs[c]]
    requires s'.pcs[c] == Idle || (s.pcs[c] == Joining && s'.pcs[c] == Joined)
    ensures |Waiting(s')| + |JoiningCallers(s')| < |Waiting(s)| + |JoiningCallers(s)|
  {
    if s'.pcs[c] == Idle {
      assert Waiting(s') == Waiting(s) - {c};
      assert JoiningCallers(s') == JoiningCallers(s) - {c};
    } else {
      assert Waiting(s') == Waiting(s);
      assert JoiningCallers(s') == JoiningCallers(s) - {c};
    }
  }

  /** So if no new call comes in, every pending StartUp and ShutDown returns. */
  lemma {:induction false} CallsReturn(actions: seq<Action>) returns (rest: seq<Action>)
    requires Run(actions).Some?
    ensures forall a :: a in rest ==> Internal(a)
    ensures Run(actions + rest).Some? && Waiting(Run(actions + rest).value) == {}
    decreases WorkLeft(Run(actions).value)
  {
    var s := Run(actions).value;
    if Waiting(s) == {} {
      rest := [];
      assert actions + rest == actions;
    } else {
      AlwaysInv(actions);
      var a := SomeStepEnabled(s);
      InternalStepProgresses(s, a);
      Extend(actions, a);
      var more := CallsReturn(actions + [a]);
      rest := [a] + more;
      assert actions + rest == actions + [a] + more;
    }
  }

  // ---------- what the callers are promised ----------

  /** The shut-down state: every thread ever started is joined and freed, and nothing runs. */
  ghost predicate Gone(s: State) {
    && s.thread.None? && !IsRunning(s)
    && forall w :: w in s.phases ==> s.phases[w] == Finished && w in s.joined && w in s.freed
  }

  /** The worker is still coming up. */
  predicate ComingUp(s: State) {
    s.thread.Some? && PhaseIs(s, s.thread.value, Spawned)
  }

  /** A call that returns within its first section. */
  predicate ReturnsAtOnce(s: State, a: Action) {
    Enabled(s, a) && Next(s, a) == s
  }

  /**
   ShutDown promises that the thread is joined and freed and that IsRunning is
   false. The caller that does the work gets that. A call that returns at once gets
   it exactly when there was no thread.
   */
  lemma {:induction false} ShutDownPromise(actions: seq<Action>, c: Caller)
    requires Run(actions).Some?
    ensures var s := Run(actions).value;
            && (Enabled(s, Reclaim(c)) ==> Gone(Next(s, Reclaim(c))))
            && (ReturnsAtOnce(s, ShutDown(c)) ==> (Gone(s) <==> s.thread.None?))
  {
    AlwaysInv(actions);
  }

  /** The steps that finish work under way can lead to a state in which the thread runs. */
  ghost predicate CanBeRunning(actions: seq<Action>)
    requires Run(actions).Some?
  {
    exists rest :: (forall a :: a in rest ==> Internal(a)) && Run(actions + rest).Some? &&
                   IsRunning(Run(actions + rest).value)
  }

  /**
   After a ShutDown that returned at once the thread can be found running, without
   any further call, exactly when it was still coming up, or when another shutdown
   was under way and the loop still up.
   */
  lemma {:induction false} RunningAfterShutDownIff(actions: seq<Action>, c: Caller)
    requires Run(actions).Some? && ReturnsAtOnce(Run(actions).value, ShutDown(c))
    ensures var s := Run(actions).value;
            CanBeRunning(actions) <==> ComingUp(s) || (s.shuttingDown && s.runLoop.Some?)
  {
    AlwaysInv(actions);
    var s := Run(actions).value;
    if ComingUp(s) {
      Extend(actions, Publish(s.thread.value));
      var rest := [Publish(s.thread.value)];
      assert IsRunning(Run(actions + rest).value);
    } else if s.runLoop.Some? {
      assert actions + [] == actions;
      assert IsRunning(Run(actions + []).value);
    } else {
      forall rest | (forall a :: a in rest ==> Internal(a)) && Run(actions + rest).Some?
        ensures !IsRunning(Run(actions + rest).value)
      {
        StaysDown(actions, rest);
      }
    }
  }

  lemma {:induction false} StaysDown(actions: seq<Action>, rest: seq<Action>)
    requires Run(actions).Some? && Run(actions + rest).Some? && forall a :: a in rest ==> Internal(a)
    requires !IsRunning(Run(actions).value) && !ComingUp(Run(actions).value)
    ensures !IsRunning(Run(actions + rest).value) && !ComingUp(Run(actions + rest).value)
    decreases |rest|
  {
    if rest == [] {
      assert actions + rest == actions;
    } else {
      var n := |rest| - 1;
      LastStep(actions, rest);
      StaysDown(actions, rest[..n]);
      AlwaysInv(actions + rest[..n]);
    }
  }

  /**
   Once all pending calls have returned, a ShutDown that returned at once has had
   its effect unless the worker was still coming up: then the request is lost and
   the thread goes on running.
   */
  lemma {:induction false} LostShutDownIff(actions: seq<Action>, c: Caller, rest: seq<Action>)
    requires Run(actions).Some? && ReturnsAtOnce(Run(actions).value, ShutDown(c))
    requires Run(actions + rest).Some? && forall a :: a in rest ==> Internal(a)
    requires Waiting(Run(actions + rest).value) == {}
    ensures var s, end := Run(actions).value, Run(actions + rest).value;
            && (Gone(end) <==> !ComingUp(s))
            && (IsRunning(end) <==> ComingUp(s))
  {
    var s, end := Run(actions).value, Run(actions + rest).value;
    AlwaysInv(actions);
    AlwaysInv(actions + rest);
    AlwaysAwaited(actions + rest);
    ShutDownIsSettled(actions, rest);
    forall d ensures PcOf(end, d) == Idle { assert d in end.pcs ==> d !in Waiting(end); }
    assert !end.shuttingDown;
    if end.thread.Some? { assert !PhaseIs(end, end.thread.value, Spawned); }
  }

  /** Without a new call a shutdown is neither begun nor given up, only completed. */
  lemma {:induction false} ShutDownIsSettled(actions: seq<Action>, rest: seq<Action>)
    requires Run(actions).Some? && Run(actions + rest).Some? && forall a :: a in rest ==> Internal(a)
    ensures var s, end := Run(actions).value, Run(actions + rest).value;
            || (end.thread == s.thread && end.shuttingDown == s.shuttingDown)
            || (end.thread.None? && s.shuttingDown)
    decreases |rest|
  {
    if rest == [] {
      assert actions + rest == actions;
    } else {
      var n := |rest| - 1;
      LastStep(actions, rest);
      ShutDownIsSettled(actions, rest[..n]);
      AlwaysInv(actions + rest[..n]);
      if rest[n].Join? || rest[n].Reclaim? { assert Committed(Run(actions + rest[..n]).value, rest[n].caller); }
    }
  }

  /** A worker that is coming up has the caller of its StartUp waiting for it. */
  ghost predicate Awaited(s: State) {
    forall w :: PhaseIs(s, w, Spawned) ==> exists c :: PcOf(s, c) == AwaitStart(w)
  }

  lemma {:induction false} AlwaysAwaited(actions: seq<Action>)
    requires Run(actions).Some?
    ensures Awaited(Run(actions).value)
  {
    if actions != [] {
      var before, a := actions[..|actions| - 1], actions[|actions| - 1];
      var s, s' := Run(before).value, Run(actions).value;
      AlwaysAwaited(before);
      forall w | PhaseIs(s', w, Spawned) ensures exists c :: PcOf(s', c) == AwaitStart(w) {
        if PhaseIs(s, w, Spawned) {
          var c :| PcOf(s, c) == AwaitStart(w);
          assert PcOf(s', c) == AwaitStart(w);
        } else {
          assert PcOf(s', a.caller) == AwaitStart(w);
        }
      }
    }
  }

  /**
   StartUp promises that IsRunning is true. A call that waited returns to a running
   thread exactly while the current thread is in its loop, so at least as long as
   nobody has begun to shut its own thread down; a call that returns at once leaves
   IsRunning false exactly when the thread is still coming up or has left its loop.
   */
  lemma {:induction false} StartUpPromise(actions: seq<Action>, c: Caller)
    requires Run(actions).Some?
    ensures var s := Run(actions).value;
            && (Enabled(s, ReturnFromStartUp(c)) ==>
                  && (IsRunning(Next(s, ReturnFromStartUp(c))) <==> s.thread.Some? && InLoop(s, s.thread.value))
                  && (s.thread == Some(PcOf(s, c).worker) && !s.shuttingDown ==>
                        IsRunning(Next(s, ReturnFromStartUp(c)))))
            && (ReturnsAtOnce(s, StartUp(c)) ==>
                  (IsRunning(s) <==> !ComingUp(s) && !PhaseIs(s, s.thread.value, Finished)))
  {
    AlwaysInv(actions);
  }

  // ---------- runs in which a promise is broken ----------

  lemma {:induction false} Extend(actions: seq<Action>, a: Action)
    requires Run(actions).Some? && Enabled(Run(actions).value, a)
    ensures Run(actions + [a]) == Some(Next(Run(actions).value, a))
  {
    assert (actions + [a])[..|actions|] == actions;
  }

  lemma {:induction false} LastStep(actions: seq<Action>, rest: seq<Action>)
    requires rest != [] && Run(actions + rest).Some?
    ensures var before := actions + rest[..|rest| - 1]; var a := rest[|rest| - 1];
            && Run(before).Some? && Enabled(Run(before).value, a)
            && Run(actions + rest).value == Next(Run(before).value, a)
    ensures rest[|rest| - 1] in rest && forall a :: a in rest[..|rest| - 1] ==> a in rest
  {
    assert (actions + rest)[..|actions + rest| - 1] == actions + rest[..|rest| - 1];
  }

  /** The state in which one thread has come up for caller 0. */
  lemma {:induction false} CameUp() returns (run: seq<Action>)
    ensures run == [StartUp(0), Publish(0)]
    ensures Run(run) == Some(Next(Next(INITIAL, StartUp(0)), Publish(0)))
  {
    assert Run([]) == Some(INITIAL) && [] + [StartUp(0)] == [StartUp(0)];
    Extend([], StartUp(0));
    Extend([StartUp(0)], Publish(0));
    run := [StartUp(0)] + [Publish(0)];
  }

  /** A second ShutDown returns while the thread still runs. */
  lemma {:induction false} SecondShutDownReturnsEarly() returns (run: seq<Action>)
    ensures run == [StartUp(0), Publish(0), ShutDown(1)]
    ensures Run(run).Some? && ReturnsAtOnce(Run(run).value, ShutDown(2)) && IsRunning(Run(run).value)
  {
    run := CameUp();
    Extend(run, ShutDown(1));
    run := run + [ShutDown(1)];
  }

  /** The only ShutDown of a run comes too early: all calls have returned, and the thread runs. */
  lemma {:induction false} LostShutDown()
    ensures var early := [StartUp(0)];
            Run(early).Some? && ReturnsAtOnce(Run(early).value, ShutDown(1))
    ensures var run := [StartUp(0), ShutDown(1), Publish(0), ReturnFromStartUp(0)];
            && Run(run).Some? && Waiting(Run(run).value) == {}
            && IsRunning(Run(run).value) && !Run(run).value.shuttingDown
  {
    assert Run([]) == Some(INITIAL) && [] + [StartUp(0)] == [StartUp(0)];
    Extend([], StartUp(0));
    Extend([StartUp(0)], ShutDown(1));
    var two := [StartUp(0)] + [ShutDown(1)];
    Extend(two, Publish(0));
    Extend(two + [Publish(0)], ReturnFromStartUp(0));
    assert two + [Publish(0)] + [ReturnFromStartUp(0)] == [StartUp(0), ShutDown(1), Publish(0), ReturnFromStartUp(0)];
  }

  lemma {:induction false} ComesDown() returns (run: seq<Action>)
    ensures run == [StartUp(0), Publish(0), ShutDown(1)]
    ensures Run(run) == Some(Next(Next(Next(INITIAL, StartUp(0)), Publish(0)), ShutDown(1)))
  {
    run := CameUp();
    Extend(run, ShutDown(1));
    run := run + [ShutDown(1)];
  }

  /** A StartUp that waited returns after the thread has been shut down again. */
  lemma {:induction false} StartUpReturnsToStopped() returns (run: seq<Action>)
    ensures run == [StartUp(0), Publish(0), ShutDown(1), LeaveLoop(0), Clear(0), ReturnFromStartUp(0)]
    ensures Run(run).Some? && PcOf(Run(run).value, 0) == Idle && !IsRunning(Run(run).value)
  {
    run := ComesDown();
    Extend(run, LeaveLoop(0));
    run := run + [LeaveLoop(0)];
    Extend(run, Clear(0));
    run := run + [Clear(0)];
    Extend(run, ReturnFromStartUp(0));
    run := run + [ReturnFromStartUp(0)];
  }

  /** A second StartUp returns at once, before the thread has come up. */
  lemma {:induction false} SecondStartUpReturnsEarly()
    ensures var run := [StartUp(0)];
            Run(run).Some? && ReturnsAtOnce(Run(run).value, StartUp(1)) && !IsRunning(Run(run).value)
  {
    assert Run([]) == Some(INITIAL) && [] + [StartUp(0)] == [StartUp(0)];
    Extend([], StartUp(0));
  }
}
