/**
 RepeatingTimer as a protocol between any number of calling threads and message
 loops. A CancelableClosure is a generation: a posted callback runs its task only
 while its generation is the live one. Each section under the API mutex, each task
 a loop runs, and each return from a wait is one step; due times are left open.
 */
module TimerProtocol {
  import opened Options

  type Loop = nat
  type Caller = nat
  type Generation = nat
  type Ticket = nat

  /** A delayed post of the task wrapper. */
  datatype Callback = Callback(loop: Loop, generation: Generation)

  /** A posted CancelClosure; the ticket stands for its promise. */
  datatype CancelTask = CancelTask(loop: Loop, ticket: Ticket)

  /**
   `Waiting` is inside CancelAndWait, which began when `before` generations had been
   scheduled; `Rescheduling` is inside SchedulePeriodic, holding the API mutex.
   */
  datatype Pc = Ready | Waiting(ticket: Ticket, before: Generation) | Rescheduling(ticket: Ticket, loop: Loop)

  datatype State = State(
    thread: Option<Loop>,              // message_loop_thread_
    live: Option<Generation>,          // what task_wrapper_ has not cancelled
    alive: set<Loop>,                  // loops that are running
    pending: seq<Callback>,
    cancels: seq<CancelTask>,
    open: set<Ticket>,                 // promises neither set nor broken
    mutex: Option<Caller>,
    generations: nat,
    tickets: nat,
    pcs: map<Caller, Pc>,
    runs: seq<Generation>,             // task executions, by the schedule they belong to
    interrupted: bool,                 // the scheduled loop went down since the schedule
    blocked: set<Loop>)                // loops whose current task waits for the API mutex

  datatype Action =
    | Cancel(caller: Caller)
    | CancelAndWait(caller: Caller)
    | ReturnFromWait(caller: Caller)
    | BeginSchedule(caller: Caller, loop: Loop)
    | FinishSchedule(caller: Caller)
    | CancelOnLoop
    | ScheduleOnLoop(loop: Loop)
    | Block(loop: Loop)
    | Unblock(loop: Loop)
    | RunCancel(index: nat)
    | RunTask(index: nat)
    | LoopUp(loop: Loop)
    | LoopDown(loop: Loop)
    | LoopDestroyed(loop: Loop)

  const INITIAL := State(None, None, {}, [], [], {}, None, 0, 0, map[], [], false, {})

  function PcOf(s: State, c: Caller): Pc {
    if c in s.pcs then s.pcs[c] else Ready
  }

  function Drop<T>(s: seq<T>, i: nat): seq<T>
    requires i < |s|
  {
    s[..i] + s[i + 1..]
  }

  /** CancelHelper off the loop: post the closure, or settle the promise when there is nowhere to post. */
  function HelpCancel(s: State): State {
    if s.thread.Some? && s.thread.value in s.alive then
      s.(tickets := s.tickets + 1, open := s.open + {s.tickets},
         cancels := s.cancels + [CancelTask(s.thread.value, s.tickets)])
    else
      s.(tickets := s.tickets + 1)
  }

  /** CancelClosure. */
  function Cancelled(s: State): State {
    s.(thread := None, live := None)
  }

  /** The rest of SchedulePeriodic once the previous task is cancelled. */
  function Scheduled(s: State, loop: Loop): State {
    if loop in s.alive then
      s.(thread := Some(loop), live := Some(s.generations), generations := s.generations + 1,
         pending := s.pending + [Callback(loop, s.generations)], interrupted := false)
    else
      s.(thread := None, live := None, generations := s.generations + 1)
  }

  /** A loop that stops drops its tasks; dropping a CancelClosure breaks its promise. */
  function WithoutLoop(s: State, loop: Loop): State {
    s.(alive := s.alive - {loop},
       pending := KeepCallbacks(s.pending, loop),
       open := s.open - (set i | 0 <= i < |s.cancels| && s.cancels[i].loop == loop :: s.cancels[i].ticket),
       cancels := KeepCancels(s.cancels, loop),
       interrupted := s.interrupted || s.thread == Some(loop))
  }

  function KeepCallbacks(pending: seq<Callback>, loop: Loop): (r: seq<Callback>)
    ensures forall b :: b in r <==> b in pending && b.loop != loop
  {
    if pending == [] then []
    else (if pending[0].loop == loop then [] else [pending[0]]) + KeepCallbacks(pending[1..], loop)
  }

  function KeepCancels(cancels: seq<CancelTask>, loop: Loop): (r: seq<CancelTask>)
    ensures forall t :: t in r <==> t in cancels && t.loop != loop
  {
    if cancels == [] then []
    else (if cancels[0].loop == loop then [] else [cancels[0]]) + KeepCancels(cancels[1..], loop)
  }

  /**
   A task that calls the timer while SchedulePeriodic holds the API mutex blocks its
   loop: until the mutex is free the loop runs nothing else and does not stop.
   */
  predicate Enabled(s: State, a: Action) {
    match a
    case Cancel(c) => s.mutex.None? && PcOf(s, c) == Ready
    case CancelAndWait(c) => s.mutex.None? && PcOf(s, c) == Ready
    case ReturnFromWait(c) => PcOf(s, c).Waiting? && PcOf(s, c).ticket !in s.open
    case BeginSchedule(c, _) => s.mutex.None? && PcOf(s, c) == Ready
    case FinishSchedule(c) => PcOf(s, c).Rescheduling? && PcOf(s, c).ticket !in s.open
    case CancelOnLoop => s.mutex.None? && s.thread.Some? && s.thread.value in s.alive - s.blocked
    case ScheduleOnLoop(_) => s.mutex.None? && s.thread.Some? && s.thread.value in s.alive - s.blocked
    case Block(loop) => s.mutex.Some? && loop in s.alive
    case Unblock(loop) => s.mutex.None? && loop in s.blocked
    case RunCancel(i) =>
      && i < |s.cancels| && s.cancels[i].loop !in s.blocked
      && forall j :: 0 <= j < i ==> s.cancels[j].loop != s.cancels[i].loop
    case RunTask(i) => i < |s.pending| && s.pending[i].loop !in s.blocked
    case LoopUp(_) => true
    case LoopDown(loop) => loop !in s.blocked
    case LoopDestroyed(loop) => loop !in s.blocked
  }

  function Next(s: State, a: Action): State
    requires Enabled(s, a)
  {
    match a
    case Cancel(c) => HelpCancel(s)
    case CancelAndWait(c) => HelpCancel(s).(pcs := s.pcs[c := Waiting(s.tickets, s.generations)])
    case ReturnFromWait(c) => s.(pcs := s.pcs[c := Ready])
    case BeginSchedule(c, loop) => HelpCancel(s).(mutex := Some(c), pcs := s.pcs[c := Rescheduling(s.tickets, loop)])
    case FinishSchedule(c) => Scheduled(s, PcOf(s, c).loop).(mutex := None, pcs := s.pcs[c := Ready])
    case CancelOnLoop => Cancelled(s)
    case ScheduleOnLoop(loop) => Scheduled(Cancelled(s), loop)
    case RunCancel(i) => Cancelled(s).(cancels := Drop(s.cancels, i), open := s.open - {s.cancels[i].ticket})
    case RunTask(i) =>
      var b, rest := s.pending[i], Drop(s.pending, i);
      if s.live != Some(b.generation) || s.thread.None? then s.(pending := rest)
      else s.(pending := rest + [b], runs := s.runs + [b.generation])
    case Block(loop) => s.(blocked := s.blocked + {loop})
    case Unblock(loop) => s.(blocked := s.blocked - {loop})
    case LoopUp(loop) => s.(alive := s.alive + {loop})
    case LoopDown(loop) => WithoutLoop(s, loop)
    case LoopDestroyed(loop) => WithoutLoop(s, loop).(thread := if s.thread == Some(loop) then None else s.thread)
  }

  // ---------- the invariant ----------

  predicate Live(s: State, b: Callback) {
    s.live == Some(b.generation)
  }

  /** How many posted callbacks belong to a generation. */
  function Count(pending: seq<Callback>, g: Generation): nat {
    if pending == [] then 0 else (if pending[0].generation == g then 1 else 0) + Count(pending[1..], g)
  }

  lemma {:induction false} CountConcat(a: seq<Callback>, b: seq<Callback>, g: Generation)
    ensures Count(a + b, g) == Count(a, g) + Count(b, g)
  {
    if a == [] {
      assert a + b == b;
    } else {
      CountConcat(a[1..], b, g);
      assert (a + b)[1..] == a[1..] + b;
    }
  }

  lemma {:induction false} CountKept(pending: seq<Callback>, loop: Loop, g: Generation)
    ensures Count(KeepCallbacks(pending, loop), g) <= Count(pending, g)
    ensures (forall b :: b in pending && b.generation == g ==> b.loop != loop) ==>
              Count(KeepCallbacks(pending, loop), g) == Count(pending, g)
  {
    if pending != [] {
      CountKept(pending[1..], loop, g);
      CountConcat(if pending[0].loop == loop then [] else [pending[0]], KeepCallbacks(pending[1..], loop), g);
    }
  }

  lemma {:induction false} CountDropped(pending: seq<Callback>, i: nat, g: Generation)
    requires i < |pending|
    ensures Count(Drop(pending, i), g) + Count([pending[i]], g) == Count(pending, g)
  {
    CountConcat(pending[..i], pending[i + 1..], g);
    CountConcat(pending[..i], [pending[i]] + pending[i + 1..], g);
    CountConcat([pending[i]], pending[i + 1..], g);
    assert pending == pending[..i] + ([pending[i]] + pending[i + 1..]);
  }

  lemma {:induction false} CountNone(pending: seq<Callback>, g: Generation)
    ensures Count(pending, g) == 0 <==> forall b :: b in pending ==> b.generation != g
  {
    if pending != [] { CountNone(pending[1..], g); }
  }

  /** A live callback sits on the scheduled loop, which runs; there is at most one. */
  ghost predicate LiveOnSchedule(s: State) {
    && (forall i :: 0 <= i < |s.pending| ==> s.pending[i].generation < s.generations)
    && (s.live.Some? ==> s.live.value < s.generations)
    && (forall i :: 0 <= i < |s.pending| && Live(s, s.pending[i]) ==>
          s.thread == Some(s.pending[i].loop) && s.pending[i].loop in s.alive)
    && (s.live.Some? ==> Count(s.pending, s.live.value) <= 1)
  }

  /** Nothing scheduled before generation `g` can run any more. */
  ghost predicate SilentBefore(s: State, g: Generation) {
    && g <= s.generations
    && forall i :: 0 <= i < |s.pending| && Live(s, s.pending[i]) ==> g <= s.pending[i].generation
  }

  /** A wait is over only after its cancellation took effect, or had nothing to cancel. */
  ghost predicate WaitsAreHonest(s: State) {
    && QueueInOrder(s)
    && (forall c :: PcOf(s, c).Waiting? ==> PcOf(s, c).ticket < s.tickets && PcOf(s, c).before <= s.generations)
    && (forall c :: PcOf(s, c).Waiting? && PcOf(s, c).ticket !in s.open ==> SilentBefore(s, PcOf(s, c).before))
    && (forall c :: PcOf(s, c).Waiting? && PcOf(s, c).ticket in s.open ==>
          exists k :: k in s.cancels && Stops(s, k, PcOf(s, c).ticket, PcOf(s, c).before))
  }

  /** Queued closures have their own tickets and sit on running loops. */
  ghost predicate QueueInOrder(s: State) {
    && (forall k :: k in s.cancels ==> k.ticket < s.tickets && k.loop in s.alive)
    && (forall t :: t in s.open ==> t < s.tickets)
    && OwnTickets(s.cancels)
  }

  ghost predicate OwnTickets(cancels: seq<CancelTask>) {
    forall k, l :: k in cancels && l in cancels && k.ticket == l.ticket ==> k == l
  }

  /** The queued closure `k` belongs to the wait and sits on the loop of every older live callback. */
  ghost predicate Stops(s: State, k: CancelTask, t: Ticket, before: Generation) {
    && k.ticket == t
    && forall i :: 0 <= i < |s.pending| && Live(s, s.pending[i]) && s.pending[i].generation < before ==>
         s.pending[i].loop == k.loop
  }

  ghost predicate Inv(s: State) {
    LiveOnSchedule(s) && WaitsAreHonest(s)
  }

  lemma {:induction false} DropMembers<T>(s: seq<T>, i: nat)
    requires i < |s|
    ensures forall x :: x in Drop(s, i) ==> x in s
    ensures forall x :: x in s ==> x in Drop(s, i) || x == s[i]
  {
    assert s == s[..i] + [s[i]] + s[i + 1..];
  }

  lemma {:induction false} StepKeepsLive(s: State, a: Action)
    requires LiveOnSchedule(s) && Enabled(s, a)
    ensures LiveOnSchedule(Next(s, a))
  {
    match a
    case RunTask(i) => RunKeepsLive(s, i);
    case FinishSchedule(c) => ScheduleKeepsLive(s, PcOf(s, c).loop);
    case ScheduleOnLoop(loop) => ScheduleKeepsLive(Cancelled(s), loop);
    case LoopDown(loop) => DownKeepsLive(s, loop);
    case LoopDestroyed(loop) => DownKeepsLive(s, loop);
    case RunCancel(i) => NothingLive(s, Next(s, a));
    case CancelOnLoop => NothingLive(s, Next(s, a));
    case _ => CallKeepsLive(s, a);
  }

  lemma {:induction false} CallKeepsLive(s: State, a: Action)
    requires LiveOnSchedule(s) && Enabled(s, a)
    requires a.Cancel? || a.CancelAndWait? || a.BeginSchedule? || a.ReturnFromWait?
             || a.LoopUp? || a.Block? || a.Unblock?
    ensures LiveOnSchedule(Next(s, a))
  {
    SameSchedule(s, Next(s, a));
  }

  lemma {:induction false} SameSchedule(s: State, s': State)
    requires LiveOnSchedule(s) && s.alive <= s'.alive && s'.pending == s.pending
    requires s'.live == s.live && s'.thread == s.thread && s'.generations == s.generations
    ensures LiveOnSchedule(s')
  {
  }

  lemma {:induction false} NothingLive(s: State, s': State)
    requires LiveOnSchedule(s) && s'.pending == s.pending && s'.live == None && s'.generations == s.generations
    ensures LiveOnSchedule(s')
  {
  }

  lemma {:induction false} RunKeepsLive(s: State, i: nat)
    requires LiveOnSchedule(s) && Enabled(s, RunTask(i))
    ensures LiveOnSchedule(Next(s, RunTask(i)))
  {
    var b, s' := s.pending[i], Next(s, RunTask(i));
    DropMembers(s.pending, i);
    if s.live.Some? {
      CountDropped(s.pending, i, s.live.value);
      CountConcat(Drop(s.pending, i), [b], s.live.value);
    }
    forall x | x in s'.pending ensures x in s.pending {}
    MembersKeepPlace(s, s');
  }

  lemma {:induction false} DownKeepsLive(s: State, loop: Loop)
    requires LiveOnSchedule(s)
    ensures LiveOnSchedule(WithoutLoop(s, loop))
    ensures LiveOnSchedule(WithoutLoop(s, loop).(thread := if s.thread == Some(loop) then None else s.thread))
  {
    var s' := WithoutLoop(s, loop);
    if s.live.Some? { CountKept(s.pending, loop, s.live.value); }
    forall i | 0 <= i < |s'.pending| ensures s'.pending[i] in s.pending && s'.pending[i].loop != loop {
      assert s'.pending[i] in s'.pending;
    }
  }

  /** Callbacks that were there before are still where they belong. */
  lemma {:induction false} MembersKeepPlace(s: State, s': State)
    requires LiveOnSchedule(s) && forall x :: x in s'.pending ==> x in s.pending
    requires s'.live == s.live && s'.thread == s.thread && s'.alive == s.alive && s'.generations == s.generations
    requires s.live.Some? ==> Count(s'.pending, s.live.value) <= 1
    ensures LiveOnSchedule(s')
  {
    forall i | 0 <= i < |s'.pending|
      ensures s'.pending[i].generation < s'.generations
      ensures Live(s', s'.pending[i]) ==> s'.thread == Some(s'.pending[i].loop) && s'.pending[i].loop in s'.alive
    {
      assert s'.pending[i] in s.pending;
    }
  }

  lemma {:induction false} ScheduleKeepsLive(s: State, loop: Loop)
    requires LiveOnSchedule(s)
    ensures LiveOnSchedule(Scheduled(s, loop))
  {
    CountNone(s.pending, s.generations);
    CountConcat(s.pending, [Callback(loop, s.generations)], s.generations);
  }

  // ---------- silence lasts ----------

  /** Once silent, an old schedule stays silent; whatever runs later was scheduled later. */
  lemma {:induction false} StepKeepsSilence(s: State, a: Action, g: Generation)
    requires LiveOnSchedule(s) && SilentBefore(s, g) && Enabled(s, a)
    ensures SilentBefore(Next(s, a), g)
    ensures s.runs <= Next(s, a).runs
    ensures forall i :: |s.runs| <= i < |Next(s, a).runs| ==> g <= Next(s, a).runs[i]
  {
    var s' := Next(s, a);
    if a.RunTask? { DropMembers(s.pending, a.index); }
    forall i | 0 <= i < |s'.pending| && Live(s', s'.pending[i]) ensures g <= s'.pending[i].generation {
      assert s'.pending[i] in s'.pending;
    }
  }

  /** When the helper finds nowhere to post, there is nothing left that could run. */
  lemma {:induction false} NothingToCancel(s: State)
    requires LiveOnSchedule(s) && !(s.thread.Some? && s.thread.value in s.alive)
    ensures SilentBefore(s, s.generations)
  {
  }

  lemma {:induction false} StepKeepsWaits(s: State, a: Action)
    requires Inv(s) && Enabled(s, a)
    ensures WaitsAreHonest(Next(s, a))
  {
    var s' := Next(s, a);
    StepKeepsQueue(s, a);
    forall c | PcOf(s', c).Waiting?
      ensures PcOf(s', c).ticket < s'.tickets && PcOf(s', c).before <= s'.generations
      ensures PcOf(s', c).ticket !in s'.open ==> SilentBefore(s', PcOf(s', c).before)
      ensures PcOf(s', c).ticket in s'.open ==>
                exists k :: k in s'.cancels && Stops(s', k, PcOf(s', c).ticket, PcOf(s', c).before)
    {
      if a == CancelAndWait(c) { NewWait(s, c); } else { OldWait(s, a, c); }
    }
  }

  lemma {:induction false} StepKeepsQueue(s: State, a: Action)
    requires QueueInOrder(s) && Enabled(s, a)
    ensures QueueInOrder(Next(s, a))
  {
    match a
    case Cancel(_) => HelpKeepsQueue(s);
    case CancelAndWait(_) => HelpKeepsQueue(s);
    case BeginSchedule(_, _) => HelpKeepsQueue(s);
    case RunCancel(i) => DropMembers(s.cancels, i);
    case LoopDown(loop) => DownKeepsQueue(s, loop);
    case LoopDestroyed(loop) => DownKeepsQueue(s, loop);
    case _ =>
  }

  lemma {:induction false} HelpKeepsQueue(s: State)
    requires QueueInOrder(s)
    ensures QueueInOrder(HelpCancel(s))
  {
  }

  lemma {:induction false} DownKeepsQueue(s: State, loop: Loop)
    requires QueueInOrder(s)
    ensures QueueInOrder(WithoutLoop(s, loop))
  {
  }

  lemma {:induction false} NewWait(s: State, c: Caller)
    requires Inv(s) && Enabled(s, CancelAndWait(c))
    ensures var s' := Next(s, CancelAndWait(c)); var pc := PcOf(s', c);
            && pc.Waiting? && pc.ticket < s'.tickets && pc.before <= s'.generations
            && (pc.ticket !in s'.open ==> SilentBefore(s', pc.before))
            && (pc.ticket in s'.open ==> exists k :: k in s'.cancels && Stops(s', k, pc.ticket, pc.before))
  {
    var s' := Next(s, CancelAndWait(c));
    if s.thread.Some? && s.thread.value in s.alive {
      var k := CancelTask(s.thread.value, s.tickets);
      assert s'.cancels[|s.cancels|] == k;
      assert Stops(s', k, s.tickets, s.generations);
    } else {
      NothingToCancel(s);
    }
  }

  lemma {:induction false} OldWait(s: State, a: Action, c: Caller)
    requires Inv(s) && Enabled(s, a) && a != CancelAndWait(c) && PcOf(Next(s, a), c).Waiting?
    ensures var s' := Next(s, a); var pc := PcOf(s', c);
            && pc.ticket < s'.tickets && pc.before <= s'.generations
            && (pc.ticket !in s'.open ==> SilentBefore(s', pc.before))
            && (pc.ticket in s'.open ==> exists k :: k in s'.cancels && Stops(s', k, pc.ticket, pc.before))
  {
    var s' := Next(s, a);
    var pc := PcOf(s, c);
    assert PcOf(s', c) == pc;
    if pc.ticket !in s.open {
      StepKeepsSilence(s, a, pc.before);
    } else {
      var k :| k in s.cancels && Stops(s, k, pc.ticket, pc.before);
      OpenWait(s, a, k, pc.ticket, pc.before);
    }
  }

  /** The closure is still queued and still reaches every older callback, or those callbacks are gone. */
  lemma {:induction false} OpenWait(s: State, a: Action, k: CancelTask, t: Ticket, before: Generation)
    requires LiveOnSchedule(s) && OwnTickets(s.cancels) && Enabled(s, a) && before <= s.generations
    requires k in s.cancels && Stops(s, k, t, before) && t in s.open
    ensures var s' := Next(s, a);
            && (t in s'.open ==> k in s'.cancels && Stops(s', k, t, before))
            && (t !in s'.open ==> SilentBefore(s', before))
  {
    OldCallbacksStay(s, a, k, before);
    match a
    case RunCancel(i) => DropMembers(s.cancels, i);
    case LoopDown(loop) => DownWhileOpen(s, loop, k, t, before);
    case LoopDestroyed(loop) => DownWhileOpen(s, loop, k, t, before);
    case _ =>
  }

  /** No step brings a callback of an older generation back to life or moves it to another loop. */
  lemma {:induction false} OldCallbacksStay(s: State, a: Action, k: CancelTask, before: Generation)
    requires LiveOnSchedule(s) && Enabled(s, a) && before <= s.generations && Stops(s, k, k.ticket, before)
    ensures Stops(Next(s, a), k, k.ticket, before)
  {
    var s' := Next(s, a);
    if a.RunTask? { DropMembers(s.pending, a.index); }
    forall i | 0 <= i < |s'.pending| && Live(s', s'.pending[i]) && s'.pending[i].generation < before
      ensures s'.pending[i].loop == k.loop
    {
      assert s'.pending[i] in s'.pending;
    }
  }

  lemma {:induction false} DownWhileOpen(s: State, loop: Loop, k: CancelTask, t: Ticket, before: Generation)
    requires LiveOnSchedule(s) && OwnTickets(s.cancels) && before <= s.generations
    requires k in s.cancels && Stops(s, k, t, before) && t in s.open
    ensures var s' := WithoutLoop(s, loop);
            && (t in s'.open ==> k in s'.cancels)
            && (t !in s'.open ==> SilentBefore(s', before))
  {
    var s' := WithoutLoop(s, loop);
    if t !in s'.open {
      var i :| 0 <= i < |s.cancels| && s.cancels[i].loop == loop && s.cancels[i].ticket == t;
      assert s.cancels[i] == k;
      forall j | 0 <= j < |s'.pending| && Live(s', s'.pending[j]) ensures before <= s'.pending[j].generation {
        assert s'.pending[j] in s'.pending;
      }
    } else {
      var i :| 0 <= i < |s.cancels| && s.cancels[i] == k;
    }
  }

  // ---------- every run ----------

  ghost function Run(actions: seq<Action>): Option<State> {
    if actions == [] then Some(INITIAL)
    else
      var before, a := Run(actions[..|actions| - 1]), actions[|actions| - 1];
      if before.Some? && Enabled(before.value, a) then Some(Next(before.value, a)) else None
  }

  lemma {:induction false} LastStep(actions: seq<Action>, rest: seq<Action>)
    requires rest != [] && Run(actions + rest).Some?
    ensures var before := actions + rest[..|rest| - 1]; var a := rest[|rest| - 1];
            && Run(before).Some? && Enabled(Run(before).value, a)
            && Run(actions + rest).value == Next(Run(before).value, a)
    ensures rest[|rest| - 1] in rest && forall a :: a in rest[..|rest| - 1] ==> a in rest
  {
    AllButLast(actions, rest);
    LastOf(actions + rest);
  }

  lemma AllButLast(actions: seq<Action>, rest: seq<Action>)
    requires rest != []
    ensures (actions + rest)[..|actions + rest| - 1] == actions + rest[..|rest| - 1]
    ensures (actions + rest)[|actions + rest| - 1] == rest[|rest| - 1]
    ensures rest[|rest| - 1] in rest && forall a :: a in rest[..|rest| - 1] ==> a in rest
  {
  }

  lemma {:induction false} LastOf(actions: seq<Action>)
    requires actions != [] && Run(actions).Some?
    ensures var before, a := actions[..|actions| - 1], actions[|actions| - 1];
            Run(before).Some? && Enabled(Run(before).value, a) && Run(actions).value == Next(Run(before).value, a)
  {
  }

  lemma {:induction false} AlwaysInv(actions: seq<Action>)
    requires Run(actions).Some?
    ensures Inv(Run(actions).value)
  {
    if actions != [] {
      AlwaysInv(actions[..|actions| - 1]);
      StepKeepsLive(Run(actions[..|actions| - 1]).value, actions[|actions| - 1]);
      StepKeepsWaits(Run(actions[..|actions| - 1]).value, actions[|actions| - 1]);
    } else {
      assert forall c :: PcOf(INITIAL, c) == Ready;
    }
  }

  /** In every reachable state at most one posted callback can still run the task. */
  lemma {:induction false} AtMostOneLiveCallback(actions: seq<Action>)
    requires Run(actions).Some? && Run(actions).value.live.Some?
    ensures Count(Run(actions).value.pending, Run(actions).value.live.value) <= 1
  {
    AlwaysInv(actions);
  }

  /**
   Once CancelAndWait may return, whatever runs later, in any continuation, was
   scheduled after the call began: without a later SchedulePeriodic, nothing runs.
   */
  lemma {:induction false} CancelAndWaitStops(actions: seq<Action>, c: Caller, later: seq<Action>)
    requires Run(actions).Some? && Run(actions + later).Some?
    requires Enabled(Run(actions).value, ReturnFromWait(c))
    ensures var s, s' := Run(actions).value, Run(actions + later).value;
            && |s.runs| <= |s'.runs|
            && forall i :: |s.runs| <= i < |s'.runs| ==> PcOf(s, c).before <= s'.runs[i]
  {
    AlwaysInv(actions);
    SilenceLasts(actions, later, PcOf(Run(actions).value, c).before);
  }

  lemma {:induction false} SilenceLasts(actions: seq<Action>, later: seq<Action>, g: Generation)
    requires Run(actions).Some? && Run(actions + later).Some? && SilentBefore(Run(actions).value, g)
    ensures var s, s' := Run(actions).value, Run(actions + later).value;
            && |s.runs| <= |s'.runs| && SilentBefore(s', g)
            && forall i :: |s.runs| <= i < |s'.runs| ==> g <= s'.runs[i]
    decreases |later|
  {
    if later == [] {
      assert actions + later == actions;
    } else {
      var n := |later| - 1;
      LastStep(actions, later);
      SilenceLasts(actions, later[..n], g);
      AlwaysInv(actions + later[..n]);
      StepKeepsSilence(Run(actions + later[..n]).value, later[n], g);
    }
  }

  // ---------- IsScheduled ----------

  predicate IsScheduled(s: State) {
    s.thread.Some? && s.thread.value in s.alive
  }

  /** While the timer is set on a loop, one live callback is posted there unless the loop went down. */
  ghost predicate PostedUnlessInterrupted(s: State) {
    s.thread.Some? ==>
      && s.live.Some?
      && Count(s.pending, s.live.value) == (if s.interrupted then 0 else 1)
      && (!s.interrupted ==> s.thread.value in s.alive)
  }

  lemma {:induction false} StepKeepsPosted(s: State, a: Action)
    requires LiveOnSchedule(s) && PostedUnlessInterrupted(s) && Enabled(s, a)
    ensures PostedUnlessInterrupted(Next(s, a))
  {
    match a
    case FinishSchedule(c) => ScheduleIsPosted(s, PcOf(s, c).loop);
    case ScheduleOnLoop(loop) => ScheduleIsPosted(Cancelled(s), loop);
    case RunTask(i) =>
      if s.thread.Some? {
        CountDropped(s.pending, i, s.live.value);
        CountConcat(Drop(s.pending, i), [s.pending[i]], s.live.value);
      }
    case LoopDown(loop) => if s.thread.Some? { DownWhilePosted(s, loop); }
    case LoopDestroyed(loop) => if s.thread.Some? { DownWhilePosted(s, loop); }
    case _ =>
  }

  lemma {:induction false} ScheduleIsPosted(s: State, loop: Loop)
    requires LiveOnSchedule(s)
    ensures PostedUnlessInterrupted(Scheduled(s, loop))
  {
    CountNone(s.pending, s.generations);
    CountConcat(s.pending, [Callback(loop, s.generations)], s.generations);
  }

  lemma {:induction false} DownWhilePosted(s: State, loop: Loop)
    requires LiveOnSchedule(s) && PostedUnlessInterrupted(s) && s.thread.Some?
    ensures PostedUnlessInterrupted(WithoutLoop(s, loop))
  {
    CountKept(s.pending, loop, s.live.value);
    forall b | b in s.pending && b.generation == s.live.value ensures b.loop == s.thread.value {
      var i :| 0 <= i < |s.pending| && s.pending[i] == b;
    }
    if s.thread.value == loop { CountNone(KeepCallbacks(s.pending, loop), s.live.value); }
  }

  lemma {:induction false} AlwaysPosted(actions: seq<Action>)
    requires Run(actions).Some?
    ensures PostedUnlessInterrupted(Run(actions).value)
  {
    if actions != [] {
      AlwaysPosted(actions[..|actions| - 1]);
      AlwaysInv(actions[..|actions| - 1]);
      StepKeepsPosted(Run(actions[..|actions| - 1]).value, actions[|actions| - 1]);
    }
  }

  /** A posted callback that can still run the task. */
  ghost predicate TaskPending(s: State) {
    exists i :: 0 <= i < |s.pending| && Live(s, s.pending[i])
  }

  /**
   IsScheduled promises to be true when a task is pending on a running thread and
   false otherwise. It is never false with a task pending; it is true with none
   exactly when the scheduled loop was taken down since, and runs again.
   */
  lemma {:induction false} IsScheduledExactly(actions: seq<Action>)
    requires Run(actions).Some?
    ensures var s := Run(actions).value; TaskPending(s) <==> IsScheduled(s) && !s.interrupted
  {
    AlwaysInv(actions);
    AlwaysPosted(actions);
    var s := Run(actions).value;
    if IsScheduled(s) {
      CountNone(s.pending, s.live.value);
      if !s.interrupted {
        var b :| b in s.pending && b.generation == s.live.value;
        var i :| 0 <= i < |s.pending| && s.pending[i] == b;
        assert Live(s, s.pending[i]);
      }
    }
  }

  const SCHEDULED := [LoopUp(0), BeginSchedule(0, 0), FinishSchedule(0)]

  lemma {:induction false} ScheduledOnce()
    ensures Run(SCHEDULED).Some?
    ensures var s := Run(SCHEDULED).value;
            && s.thread == Some(0) && s.live == Some(0) && s.alive == {0} && s.generations == 1 && s.mutex == None
            && s.pending == [Callback(0, 0)] && s.cancels == [] && s.open == {} && s.tickets == 1 && s.blocked == {}
            && PcOf(s, 0) == Ready && PcOf(s, 1) == Ready
  {
    assert Run([]) == Some(INITIAL) && [] + [LoopUp(0)] == [LoopUp(0)];
    Extend([], LoopUp(0));
    Extend([LoopUp(0)], BeginSchedule(0, 0));
    var two := [LoopUp(0)] + [BeginSchedule(0, 0)];
    Extend(two, FinishSchedule(0));
    assert SCHEDULED == two + [FinishSchedule(0)];
  }

  /** Such a run: the loop goes down and comes up again, and the timer claims to be scheduled. */
  lemma {:induction false} ScheduledWithNothingPending()
    ensures var run := SCHEDULED + [LoopDown(0)] + [LoopUp(0)];
            Run(run).Some? && IsScheduled(Run(run).value) && !TaskPending(Run(run).value)
  {
    ScheduledOnce();
    Extend(SCHEDULED, LoopDown(0));
    Extend(SCHEDULED + [LoopDown(0)], LoopUp(0));
    IsScheduledExactly(SCHEDULED + [LoopDown(0)] + [LoopUp(0)]);
  }

  /**
   A callback runs its task exactly when its schedule is the live one and the timer
   is set; then it runs on the thread of the timer and is posted once more. Any other
   callback goes without a trace.
   */
  lemma {:induction false} TaskRunsIff(actions: seq<Action>, i: nat)
    requires Run(actions).Some? && Enabled(Run(actions).value, RunTask(i))
    ensures var s := Run(actions).value; var s', b := Next(s, RunTask(i)), s.pending[i];
            && (s'.runs == s.runs + [b.generation] <==> Live(s, b) && IsScheduled(s))
            && (s'.runs == s.runs <==> !Live(s, b) || !IsScheduled(s))
            && (Live(s, b) ==> s.thread == Some(b.loop) && Count(s'.pending, b.generation) == 1)
            && (!Live(s, b) ==> |s'.pending| == |s.pending| - 1)
            && s'.live == s.live && s'.thread == s.thread && s'.alive == s.alive
  {
    AlwaysInv(actions);
    var s := Run(actions).value;
    var b := s.pending[i];
    CountDropped(s.pending, i, b.generation);
    CountConcat(Drop(s.pending, i), [b], b.generation);
  }

  /** The timer is set, its loop has not gone down since, and is not held up. */
  predicate Ticking(s: State) {
    IsScheduled(s) && !s.interrupted && s.thread.value !in s.blocked
  }

  /** Then some callback can run the task of the live schedule, and the timer ticks on. */
  lemma {:induction false} TaskCanRun(actions: seq<Action>) returns (i: nat)
    requires Run(actions).Some? && Ticking(Run(actions).value)
    ensures var s := Run(actions).value;
            && Enabled(s, RunTask(i)) && s.live.Some?
            && var s' := Next(s, RunTask(i)); s'.runs == s.runs + [s.live.value] && s'.live == s.live && Ticking(s')
  {
    var s := Run(actions).value;
    IsScheduledExactly(actions);
    AlwaysInv(actions);
    i :| 0 <= i < |s.pending| && Live(s, s.pending[i]);
    TaskRunsIff(actions, i);
  }

  /** So it can run any number of times. */
  lemma {:induction false} TaskRunsAgainAndAgain(actions: seq<Action>, times: nat) returns (rest: seq<Action>)
    requires Run(actions).Some? && Ticking(Run(actions).value)
    ensures |rest| == times && (forall a :: a in rest ==> a.RunTask?) && Run(actions + rest).Some?
    ensures var s, s' := Run(actions).value, Run(actions + rest).value;
            && Ticking(s') && s'.live == s.live && |s'.runs| == |s.runs| + times
            && forall k :: |s.runs| <= k < |s'.runs| ==> Some(s'.runs[k]) == s.live
    decreases times
  {
    if times == 0 {
      rest := [];
      assert actions + rest == actions;
    } else {
      var before := TaskRunsAgainAndAgain(actions, times - 1);
      var i := TaskCanRun(actions + before);
      Extend(actions + before, RunTask(i));
      rest := before + [RunTask(i)];
      assert actions + rest == actions + before + [RunTask(i)];
    }
  }

  /** The loop that an action schedules the timer on, if it does. */
  function SchedulesOn(s: State, a: Action): Option<Loop>
    requires Enabled(s, a)
  {
    if a.FinishSchedule? then Some(PcOf(s, a.caller).loop) else if a.ScheduleOnLoop? then Some(a.loop) else None
  }

  /**
   How the timer gets scheduled and unscheduled. A schedule takes effect exactly when
   its loop runs; a cancellation that runs and the end of the loop leave nothing
   pending; and nothing else makes a task pending or stops it.
   */
  lemma {:induction false} ScheduledAfter(actions: seq<Action>, a: Action)
    requires Run(actions).Some? && Enabled(Run(actions).value, a)
    ensures var s := Run(actions).value; var s', on := Next(s, a), SchedulesOn(s, a);
            && (on.Some? ==>
                  && (IsScheduled(s') <==> on.value in s.alive) && (TaskPending(s') <==> on.value in s.alive)
                  && (on.value in s.alive ==> s'.thread == on && s'.live == Some(s.generations)))
            && (a.RunCancel? || a.CancelOnLoop? ==> !IsScheduled(s') && !TaskPending(s'))
            && ((a.LoopDown? || a.LoopDestroyed?) && s.thread == Some(a.loop) ==>
                  !IsScheduled(s') && !TaskPending(s') && (a.LoopDestroyed? ==> s'.thread.None?))
            && (on.None? && !a.RunCancel? && !a.CancelOnLoop?
                && !((a.LoopDown? || a.LoopDestroyed?) && s.thread == Some(a.loop)) ==>
                  && (TaskPending(s') <==> TaskPending(s)) && s'.thread == s.thread && s'.live == s.live
                  && (IsScheduled(s') <==> IsScheduled(s) || (a.LoopUp? && s.thread == Some(a.loop))))
  {
    Extend(actions, a);
    IsScheduledExactly(actions);
    IsScheduledExactly(actions + [a]);
    AlwaysPosted(actions);
  }

  // ---------- does a new schedule survive? ----------

  /** Steps that are neither a call on the timer nor the end of a loop. */
  predicate Undisturbing(a: Action) {
    a.ReturnFromWait? || a.RunCancel? || a.RunTask? || a.LoopUp? || a.Unblock?
  }

  /** No closure that is still queued can run while nothing else happens. */
  ghost predicate CancelsHeldUp(s: State) {
    forall k :: k in s.cancels ==> s.mutex.Some? && k.loop in s.blocked
  }

  lemma {:induction false} Extend(actions: seq<Action>, a: Action)
    requires Run(actions).Some? && Enabled(Run(actions).value, a)
    ensures Run(actions + [a]) == Some(Next(Run(actions).value, a))
  {
    assert (actions + [a])[..|actions|] == actions;
  }

  /** Whatever the loops do from here on without a new call, the schedule stays live. */
  ghost predicate Survives(actions: seq<Action>)
    requires Run(actions).Some?
  {
    forall later :: (forall a :: a in later ==> Undisturbing(a)) && Run(actions + later).Some? ==>
      Run(actions + later).value.live == Run(actions).value.live
  }

  /**
   A successful schedule stays until it is cancelled exactly when no older
   cancellation that can still run is queued.
   */
  lemma {:induction false} ScheduleSurvivesIff(actions: seq<Action>)
    requires Run(actions).Some? && Run(actions).value.live.Some?
    ensures Survives(actions) <==> CancelsHeldUp(Run(actions).value)
  {
    var s := Run(actions).value;
    if CancelsHeldUp(s) {
      forall later | (forall a :: a in later ==> Undisturbing(a)) && Run(actions + later).Some?
        ensures Run(actions + later).value.live == s.live
      {
        StaysLive(actions, later);
      }
    } else {
      var k :| k in s.cancels && !(s.mutex.Some? && k.loop in s.blocked);
      var later := CancelGoesThrough(actions, k.loop);
      assert Run(actions + later).value.live == None;
    }
  }

  /** The first closure on a loop, unblocked if need be, runs and cancels whatever is live. */
  lemma {:induction false} CancelGoesThrough(actions: seq<Action>, loop: Loop) returns (later: seq<Action>)
    requires Run(actions).Some?
    requires exists k :: k in Run(actions).value.cancels && k.loop == loop
    requires Run(actions).value.mutex.None? || loop !in Run(actions).value.blocked
    ensures (forall a :: a in later ==> Undisturbing(a)) && Run(actions + later).Some?
    ensures Run(actions + later).value.live == None
  {
    var s := Run(actions).value;
    var i := FirstOn(s.cancels, loop);
    if loop in s.blocked {
      Extend(actions, Unblock(loop));
      Extend(actions + [Unblock(loop)], RunCancel(i));
      later := [Unblock(loop), RunCancel(i)];
      assert actions + later == actions + [Unblock(loop)] + [RunCancel(i)];
    } else {
      Extend(actions, RunCancel(i));
      later := [RunCancel(i)];
    }
  }

  lemma {:induction false} FirstOn(cancels: seq<CancelTask>, loop: Loop) returns (i: nat)
    requires exists k :: k in cancels && k.loop == loop
    ensures i < |cancels| && cancels[i].loop == loop && forall j :: 0 <= j < i ==> cancels[j].loop != loop
  {
    if cancels[0].loop == loop {
      i := 0;
    } else {
      var k :| k in cancels && k.loop == loop;
      assert k in cancels[1..];
      i := FirstOn(cancels[1..], loop);
      i := i + 1;
    }
  }

  lemma {:induction false} StaysLive(actions: seq<Action>, later: seq<Action>)
    requires Run(actions).Some? && Run(actions + later).Some? && CancelsHeldUp(Run(actions).value)
    requires forall a :: a in later ==> Undisturbing(a)
    ensures Run(actions + later).value.live == Run(actions).value.live && CancelsHeldUp(Run(actions + later).value)
    decreases |later|
  {
    if later == [] {
      assert actions + later == actions;
    } else {
      var n := |later| - 1;
      LastStep(actions, later);
      StaysLive(actions, later[..n]);
      UndisturbedStep(Run(actions + later[..n]).value, later[n]);
    }
  }

  lemma {:induction false} UndisturbedStep(s: State, a: Action)
    requires CancelsHeldUp(s) && Enabled(s, a) && Undisturbing(a)
    ensures Next(s, a).live == s.live && CancelsHeldUp(Next(s, a))
  {
  }

  const TWO_CANCELS := SCHEDULED + [Cancel(0)] + [Cancel(0)] + [RunCancel(0)]

  /** One schedule, two Cancel calls, the first of which has run. */
  lemma {:induction false} SecondCancelQueued()
    ensures Run(TWO_CANCELS).Some?
    ensures var s := Run(TWO_CANCELS).value;
            && s.cancels == [CancelTask(0, 2)] && s.thread == None && s.alive == {0} && s.generations == 1
            && s.mutex == None && PcOf(s, 0) == Ready && s.open == {2} && s.tickets == 3 && s.blocked == {}
  {
    ScheduledOnce();
    Extend(SCHEDULED, Cancel(0));
    Extend(SCHEDULED + [Cancel(0)], Cancel(0));
    Extend(SCHEDULED + [Cancel(0)] + [Cancel(0)], RunCancel(0));
  }

  /** The Cancel that is still queued kills a schedule made after it. */
  lemma {:induction false} StaleCancelKillsSchedule()
    ensures var again := TWO_CANCELS + [BeginSchedule(0, 0)] + [FinishSchedule(0)];
            && Run(again).Some? && Run(again).value.live == Some(1) && IsScheduled(Run(again).value)
            && !Survives(again)
  {
    SecondCancelQueued();
    Extend(TWO_CANCELS, BeginSchedule(0, 0));
    Extend(TWO_CANCELS + [BeginSchedule(0, 0)], FinishSchedule(0));
    ScheduleSurvivesIff(TWO_CANCELS + [BeginSchedule(0, 0)] + [FinishSchedule(0)]);
  }

  // ---------- does SchedulePeriodic return? ----------

  /** The API mutex belongs to the caller inside SchedulePeriodic, and promises belong to queued closures. */
  ghost predicate Orderly(s: State) {
    && (forall c: Caller :: PcOf(s, c).Rescheduling? <==> s.mutex == Some(c))
    && (forall t :: t in s.open ==> exists k :: k in s.cancels && k.ticket == t)
    && OwnTickets(s.cancels)
  }

  lemma {:induction false} AlwaysOrderly(actions: seq<Action>)
    requires Run(actions).Some?
    ensures Orderly(Run(actions).value)
  {
    AlwaysInv(actions);
    if actions == [] {
      assert forall c :: PcOf(INITIAL, c) == Ready;
    } else {
      var before, a := Run(actions[..|actions| - 1]).value, actions[|actions| - 1];
      AlwaysOrderly(actions[..|actions| - 1]);
      StepKeepsMutex(before, a);
      forall t | t in Next(before, a).open ensures exists k :: k in Next(before, a).cancels && k.ticket == t {
        StepKeepsPromise(before, a, t);
      }
    }
  }

  lemma {:induction false} StepKeepsMutex(s: State, a: Action)
    requires (forall c: Caller :: PcOf(s, c).Rescheduling? <==> s.mutex == Some(c)) && Enabled(s, a)
    ensures forall c: Caller :: PcOf(Next(s, a), c).Rescheduling? <==> Next(s, a).mutex == Some(c)
  {
    var s' := Next(s, a);
    forall c: Caller ensures PcOf(s', c).Rescheduling? <==> s'.mutex == Some(c) {
      assert PcOf(s, c).Rescheduling? <==> s.mutex == Some(c);
    }
  }

  lemma {:induction false} StepKeepsPromise(s: State, a: Action, t: Ticket)
    requires Orderly(s) && Enabled(s, a) && t in Next(s, a).open
    ensures exists k :: k in Next(s, a).cancels && k.ticket == t
  {
    var s' := Next(s, a);
    if t !in s.open {
      var k := CancelTask(s.thread.value, t);
      assert k == s'.cancels[|s.cancels|];
    } else {
      var k :| k in s.cancels && k.ticket == t;
      if a.RunCancel? {
        DropMembers(s.cancels, a.index);
      } else if a.LoopDown? || a.LoopDestroyed? {
        var i :| 0 <= i < |s.cancels| && s.cancels[i] == k;
      }
      assert k in s'.cancels;
    }
  }

  /** The closure that the caller waits for sits behind a task that waits for the caller. */
  ghost predicate Deadlocked(s: State, c: Caller) {
    && PcOf(s, c).Rescheduling? && PcOf(s, c).ticket in s.open
    && exists k :: k in s.cancels && k.ticket == PcOf(s, c).ticket && k.loop in s.blocked
  }

  /** Whether the waiting call can return in some continuation. */
  ghost predicate CanReturn(actions: seq<Action>, c: Caller) {
    exists rest :: Run(actions + rest).Some? && Enabled(Run(actions + rest).value, FinishSchedule(c))
  }

  /** A SchedulePeriodic that waits for the cancellation can return exactly when it is not deadlocked. */
  lemma {:induction false} ScheduleReturnsIff(actions: seq<Action>, c: Caller)
    requires Run(actions).Some? && PcOf(Run(actions).value, c).Rescheduling?
    ensures CanReturn(actions, c) <==> !Deadlocked(Run(actions).value, c)
  {
    var s := Run(actions).value;
    AlwaysOrderly(actions);
    if Deadlocked(s, c) {
      forall rest | Run(actions + rest).Some? ensures !Enabled(Run(actions + rest).value, FinishSchedule(c)) {
        StaysDeadlocked(actions, rest, c);
      }
    } else if PcOf(s, c).ticket in s.open {
      var k :| k in s.cancels && k.ticket == PcOf(s, c).ticket;
      var rest := WaitsOut(s, k);
      RunsOn(actions, rest);
      assert Enabled(Run(actions + rest).value, FinishSchedule(c));
    } else {
      assert actions + [] == actions;
      assert Enabled(Run(actions + []).value, FinishSchedule(c));
    }
  }

  lemma {:induction false} StaysDeadlocked(actions: seq<Action>, rest: seq<Action>, c: Caller)
    requires Run(actions).Some? && Run(actions + rest).Some? && Deadlocked(Run(actions).value, c)
    ensures Deadlocked(Run(actions + rest).value, c)
    decreases |rest|
  {
    if rest == [] {
      assert actions + rest == actions;
    } else {
      var n := |rest| - 1;
      LastStep(actions, rest);
      StaysDeadlocked(actions, rest[..n], c);
      AlwaysOrderly(actions + rest[..n]);
      DeadlockLasts(Run(actions + rest[..n]).value, rest[n], c);
    }
  }

  lemma {:induction false} DeadlockLasts(s: State, a: Action, c: Caller)
    requires Orderly(s) && Deadlocked(s, c) && Enabled(s, a)
    ensures Deadlocked(Next(s, a), c)
  {
    var s' := Next(s, a);
    var k :| k in s.cancels && k.ticket == PcOf(s, c).ticket && k.loop in s.blocked;
    assert s.mutex == Some(c);
    KeepsBlockedClosure(s, a, k);
    assert PcOf(s', c) == PcOf(s, c);
  }

  lemma {:induction false} KeepsBlockedClosure(s: State, a: Action, k: CancelTask)
    requires OwnTickets(s.cancels) && s.mutex.Some? && Enabled(s, a) && !a.FinishSchedule?
    requires k in s.cancels && k.loop in s.blocked && k.ticket in s.open
    ensures var s' := Next(s, a); k in s'.cancels && k.loop in s'.blocked && k.ticket in s'.open
  {
    if a.RunCancel? { DropMembers(s.cancels, a.index); }
  }

  /** The state that these steps lead to, or None when one of them is not enabled. */
  ghost function RunFrom(s: State, rest: seq<Action>): Option<State>
    decreases |rest|
  {
    if rest == [] then Some(s)
    else if Enabled(s, rest[0]) then RunFrom(Next(s, rest[0]), rest[1..])
    else None
  }

  lemma {:induction false} RunsOn(actions: seq<Action>, rest: seq<Action>)
    requires Run(actions).Some? && RunFrom(Run(actions).value, rest).Some?
    ensures Run(actions + rest) == RunFrom(Run(actions).value, rest)
    decreases |rest|
  {
    if rest == [] {
      assert actions + rest == actions;
    } else {
      var next := OneStepOn(actions, rest);
      RunsOn(next, rest[1..]);
    }
  }

  lemma {:induction false} OneStepOn(actions: seq<Action>, rest: seq<Action>) returns (next: seq<Action>)
    requires Run(actions).Some? && rest != [] && Enabled(Run(actions).value, rest[0])
    ensures Run(next) == Some(Next(Run(actions).value, rest[0])) && next + rest[1..] == actions + rest
  {
    next := actions + [rest[0]];
    Extend(actions, rest[0]);
  }

  /** The closures on the loop run one after the other until the one waited for has run. */
  lemma {:induction false} WaitsOut(s: State, k: CancelTask) returns (rest: seq<Action>)
    requires OwnTickets(s.cancels) && k in s.cancels && k.loop !in s.blocked
    ensures RunFrom(s, rest).Some?
    ensures var s' := RunFrom(s, rest).value;
            s'.pcs == s.pcs && s'.mutex == s.mutex && s'.blocked == s.blocked && k.ticket !in s'.open
    decreases |s.cancels|
  {
    var i := FirstOn(s.cancels, k.loop);
    var a := RunCancel(i);
    ClosureRuns(s, i, k);
    if s.cancels[i] == k {
      rest := [a];
      assert [a][1..] == [];
    } else {
      var more := WaitsOut(Next(s, a), k);
      rest := [a] + more;
      assert rest[1..] == more;
    }
  }

  lemma {:induction false} ClosureRuns(s: State, i: nat, k: CancelTask)
    requires OwnTickets(s.cancels) && Enabled(s, RunCancel(i)) && k in s.cancels
    ensures var s' := Next(s, RunCancel(i));
            && s'.pcs == s.pcs && s'.mutex == s.mutex && s'.blocked == s.blocked && |s'.cancels| < |s.cancels|
            && OwnTickets(s'.cancels)
            && (if s.cancels[i] == k then k.ticket !in s'.open else k in s'.cancels)
  {
    DropMembers(s.cancels, i);
  }

  /** Such a run: a task on the scheduled loop calls the timer while a second SchedulePeriodic waits for that loop. */
  lemma {:induction false} ScheduleDeadlocks()
    ensures var run := SCHEDULED + [BeginSchedule(1, 0)] + [Block(0)];
            Run(run).Some? && Deadlocked(Run(run).value, 1) && !CanReturn(run, 1)
  {
    ScheduledOnce();
    var waiting := SCHEDULED + [BeginSchedule(1, 0)];
    Extend(SCHEDULED, BeginSchedule(1, 0));
    Extend(waiting, Block(0));
    var s := Run(waiting + [Block(0)]).value;
    assert s.cancels[0] == CancelTask(0, 1) && s.cancels[0] in s.cancels;
    ScheduleReturnsIff(waiting + [Block(0)], 1);
  }

  // ---------- does every call return? ----------

  /** In some continuation the caller is back from its call. */
  ghost predicate ComesBack(actions: seq<Action>, c: Caller) {
    exists rest :: Run(actions + rest).Some? && PcOf(Run(actions + rest).value, c) == Ready
  }

  /** A CancelAndWait whose closure sits on a loop that waits for a deadlocked SchedulePeriodic. */
  ghost predicate HeldUp(s: State, c: Caller) {
    && PcOf(s, c).Waiting? && PcOf(s, c).ticket in s.open
    && (exists k :: k in s.cancels && k.ticket == PcOf(s, c).ticket && k.loop in s.blocked)
    && exists d :: Deadlocked(s, d)
  }

  /**
   Every call can return, in whatever state the run has reached, except a deadlocked
   SchedulePeriodic and a CancelAndWait that is held up by one.
   */
  lemma {:induction false} CallReturnsIff(actions: seq<Action>, c: Caller)
    requires Run(actions).Some?
    ensures ComesBack(actions, c) <==> !Deadlocked(Run(actions).value, c) && !HeldUp(Run(actions).value, c)
  {
    var s := Run(actions).value;
    if Deadlocked(s, c) || HeldUp(s, c) {
      forall rest | Run(actions + rest).Some? ensures PcOf(Run(actions + rest).value, c) != Ready {
        StaysInside(actions, rest, c);
      }
    } else {
      var rest := GoesBack(actions, c);
    }
  }

  lemma {:induction false} StaysInside(actions: seq<Action>, rest: seq<Action>, c: Caller)
    requires Run(actions).Some? && Run(actions + rest).Some?
    requires Deadlocked(Run(actions).value, c) || HeldUp(Run(actions).value, c)
    ensures Deadlocked(Run(actions + rest).value, c) || HeldUp(Run(actions + rest).value, c)
    decreases |rest|
  {
    if rest == [] {
      assert actions + rest == actions;
    } else {
      var n := |rest| - 1;
      LastStep(actions, rest);
      StaysInside(actions, rest[..n], c);
      AlwaysOrderly(actions + rest[..n]);
      var s := Run(actions + rest[..n]).value;
      if Deadlocked(s, c) { DeadlockLasts(s, rest[n], c); } else { HoldLasts(s, rest[n], c); }
    }
  }

  /** The deadlocked caller holds the mutex, so no SchedulePeriodic can finish. */
  lemma {:induction false} MutexHeld(s: State, d: Caller, a: Action)
    requires Orderly(s) && Deadlocked(s, d) && Enabled(s, a)
    ensures s.mutex == Some(d) && !a.FinishSchedule?
  {
    assert PcOf(s, d).Rescheduling?;
  }

  lemma {:induction false} HoldLasts(s: State, a: Action, c: Caller)
    requires Orderly(s) && HeldUp(s, c) && Enabled(s, a)
    ensures HeldUp(Next(s, a), c)
  {
    var k :| k in s.cancels && k.ticket == PcOf(s, c).ticket && k.loop in s.blocked;
    var d :| Deadlocked(s, d);
    MutexHeld(s, d, a);
    DeadlockLasts(s, a, d);
    KeepsBlockedClosure(s, a, k);
    assert PcOf(Next(s, a), c) == PcOf(s, c);
  }

  lemma {:induction false} GoesBack(actions: seq<Action>, c: Caller) returns (rest: seq<Action>)
    requires Run(actions).Some? && !Deadlocked(Run(actions).value, c) && !HeldUp(Run(actions).value, c)
    ensures Run(actions + rest).Some? && PcOf(Run(actions + rest).value, c) == Ready
  {
    var s := Run(actions).value;
    match PcOf(s, c)
    case Ready =>
      rest := [];
      assert actions + rest == actions;
    case Rescheduling(_, _) => rest := Finishes(actions, c);
    case Waiting(_, _) =>
      if s.mutex.None? {
        rest := WaitEnds(actions, c);
      } else {
        rest := WaitEndsLater(actions, c);
      }
  }

  /** The caller inside SchedulePeriodic goes through, and gives the mutex back. */
  lemma {:induction false} Finishes(actions: seq<Action>, c: Caller) returns (rest: seq<Action>)
    requires Run(actions).Some? && PcOf(Run(actions).value, c).Rescheduling? && !Deadlocked(Run(actions).value, c)
    ensures Run(actions + rest).Some?
    ensures var s, s' := Run(actions).value, Run(actions + rest).value;
            s'.mutex.None? && s'.pcs == s.pcs[c := Ready]
  {
    var s := Run(actions).value;
    var before: seq<Action> := [];
    AlwaysOrderly(actions);
    if PcOf(s, c).ticket in s.open {
      var k :| k in s.cancels && k.ticket == PcOf(s, c).ticket;
      before := WaitsOut(s, k);
      RunsOn(actions, before);
    } else {
      assert actions + before == actions;
    }
    Extend(actions + before, FinishSchedule(c));
    rest := Joined(actions, before, [FinishSchedule(c)]);
  }

  /** While nobody holds the mutex, a loop that waited for it can go on, and so the wait ends. */
  lemma {:induction false} WaitEnds(actions: seq<Action>, c: Caller) returns (rest: seq<Action>)
    requires Run(actions).Some? && Run(actions).value.mutex.None? && PcOf(Run(actions).value, c).Waiting?
    ensures Run(actions + rest).Some? && PcOf(Run(actions + rest).value, c) == Ready
  {
    var s := Run(actions).value;
    var before: seq<Action> := [];
    AlwaysOrderly(actions);
    if PcOf(s, c).ticket in s.open {
      var k :| k in s.cancels && k.ticket == PcOf(s, c).ticket;
      before := Unblocks(actions, k);
    } else {
      assert actions + before == actions;
    }
    Extend(actions + before, ReturnFromWait(c));
    rest := Joined(actions, before, [ReturnFromWait(c)]);
  }

  lemma {:induction false} Unblocks(actions: seq<Action>, k: CancelTask) returns (rest: seq<Action>)
    requires Run(actions).Some? && Run(actions).value.mutex.None? && k in Run(actions).value.cancels
    ensures Run(actions + rest).Some?
    ensures Run(actions + rest).value.pcs == Run(actions).value.pcs && k.ticket !in Run(actions + rest).value.open
  {
    AlwaysOrderly(actions);
    if k.loop in Run(actions).value.blocked {
      Extend(actions, Unblock(k.loop));
      AlwaysOrderly(actions + [Unblock(k.loop)]);
      var more := RunsOut(actions + [Unblock(k.loop)], k);
      rest := Joined(actions, [Unblock(k.loop)], more);
    } else {
      rest := RunsOut(actions, k);
    }
  }

  lemma {:induction false} RunsOut(actions: seq<Action>, k: CancelTask) returns (rest: seq<Action>)
    requires Run(actions).Some? && OwnTickets(Run(actions).value.cancels)
    requires k in Run(actions).value.cancels && k.loop !in Run(actions).value.blocked
    ensures Run(actions + rest).Some?
    ensures Run(actions + rest).value.pcs == Run(actions).value.pcs && k.ticket !in Run(actions + rest).value.open
  {
    rest := WaitsOut(Run(actions).value, k);
    RunsOn(actions, rest);
  }

  lemma Joined(actions: seq<Action>, a: seq<Action>, b: seq<Action>) returns (rest: seq<Action>)
    ensures rest == a + b && actions + rest == actions + a + b
  {
    rest := a + b;
  }

  lemma {:induction false} WaitEndsLater(actions: seq<Action>, c: Caller) returns (rest: seq<Action>)
    requires Run(actions).Some? && Run(actions).value.mutex.Some? && PcOf(Run(actions).value, c).Waiting?
    requires !HeldUp(Run(actions).value, c)
    ensures Run(actions + rest).Some? && PcOf(Run(actions + rest).value, c) == Ready
  {
    var s := Run(actions).value;
    AlwaysOrderly(actions);
    if PcOf(s, c).ticket !in s.open {
      Extend(actions, ReturnFromWait(c));
      rest := [ReturnFromWait(c)];
    } else {
      var k :| k in s.cancels && k.ticket == PcOf(s, c).ticket;
      if k.loop in s.blocked {
        rest := WaitEndsAfter(actions, c, s.mutex.value);
      } else {
        rest := RunsAndReturns(actions, c, k);
      }
    }
  }

  lemma {:induction false} WaitEndsAfter(actions: seq<Action>, c: Caller, d: Caller) returns (rest: seq<Action>)
    requires Run(actions).Some? && PcOf(Run(actions).value, c).Waiting?
    requires PcOf(Run(actions).value, d).Rescheduling? && !Deadlocked(Run(actions).value, d)
    ensures Run(actions + rest).Some? && PcOf(Run(actions + rest).value, c) == Ready
  {
    var before := Finishes(actions, d);
    var more := WaitEnds(actions + before, c);
    rest := Joined(actions, before, more);
  }

  lemma {:induction false} RunsAndReturns(actions: seq<Action>, c: Caller, k: CancelTask) returns (rest: seq<Action>)
    requires Run(actions).Some? && k in Run(actions).value.cancels && k.loop !in Run(actions).value.blocked
    requires PcOf(Run(actions).value, c).Waiting? && PcOf(Run(actions).value, c).ticket == k.ticket
    ensures Run(actions + rest).Some? && PcOf(Run(actions + rest).value, c) == Ready
  {
    AlwaysOrderly(actions);
    var before := RunsOut(actions, k);
    Extend(actions + before, ReturnFromWait(c));
    rest := Joined(actions, before, [ReturnFromWait(c)]);
  }
}
