/**
 An output stream on top of the port: any number of client threads run its
 operations while callbacks arrive. Every read of the port state, every
 check-then-set and every handler is one step. Callbacks do not take the stream
 mutex, so they can come between any two steps of the thread that holds it.
 */
module AudioStream {
  import opened Options
  import opened AudioPort
  import AudioParams

  type Thread = nat

  /** What out_set_parameters acts on; the flags are the values "true", "true" and "1". */
  datatype Request = Request(a2dpSuspended: Option<bool>, closing: bool, exiting: bool)

  function RequestOf(params: map<string, string>): Request {
    Request(
      if "A2dpSuspended" in params then Some(params["A2dpSuspended"] == "true") else None,
      "closing" in params && params["closing"] == "true",
      "exiting" in params && params["exiting"] == "1")
  }

  datatype Op = Write(bytes: nat) | Resume | StandbyOrPause | SetParameters(kvpairs: string) | Close

  /**
   Where a thread is. `seen` are the port states its out_write or out_resume has
   read so far, and `gaps` the callbacks that came between the comparisons of out_resume.
   */
  datatype Pc =
    | Idle
    | WriteCheck(bytes: nat)
    | ResumeCheck(step: nat, write: Option<nat>, seen: seq<StreamState>, gaps: seq<seq<Callback>>)
    | CallStart(write: Option<nat>, seen: seq<StreamState>)
    | AwaitStarted(write: Option<nat>, seen: seq<StreamState>)
    | GiveUp(bytes: nat)
    | CallWriteData(bytes: nat, seen: seq<StreamState>, gaps: seq<seq<Callback>>)
    | CountWritten(bytes: nat, written: nat)
    | PauseCheck(step: nat)
    | CallSuspend(rest: Option<Request>)
    | AwaitSuspended(rest: Option<Request>)
    | DisableAfterSuspend(request: Request)
    | SuspendParam(request: Request)
    | StopParam(request: Request)
    | ClosingParam(request: Request)
    | ExitingParam(request: Request)
    | CloseCheck

  /** Why the port is in a state: it was opened, a thread took a step, or a callback came. */
  datatype Cause = Opening | Stepped(pc: Pc) | Heard(callback: Callback)

  datatype Entry = Entry(state: StreamState, cause: Cause)

  datatype State = State(
    port: Port,
    framesRendered: nat,
    framesPresented: nat,
    pcs: map<Thread, Pc>,
    mutex: Option<Thread>,
    heard: seq<Callback>,  // what the port heard since the last step of the thread that holds the mutex
    closed: bool,          // the stream has been handed to adev_close_output_stream
    trail: seq<Entry>,     // the states the port has gone through
    answers: map<Thread, int>)  // what the last finished operation of each thread returned

  /** What the environment decides in a step: the stack's answer, a timeout, the bytes it took. */
  datatype Choice = Choice(accepted: bool, timedOut: bool, written: nat)

  datatype Action =
    | Call(thread: Thread, op: Op)
    | Go(thread: Thread, choice: Choice)
    | Deliver(cookie: Cookie, callback: Callback)

  function PcOf(s: State, t: Thread): Pc {
    if t in s.pcs then s.pcs[t] else Idle
  }

  /** A stream opened on a port that SetUp has registered. */
  function Opened(cookie: Cookie, session: Session): State {
    var port := AfterSetUp(UNUSED, Some(session), true, Some(cookie));
    State(port, 0, 0, map[], None, [], false, [Entry(Standby, Opening)], map[])
  }

  function WithPort(s: State, port: Port, cause: Cause): State {
    s.(port := port, trail := if port.state == s.port.state then s.trail else s.trail + [Entry(port.state, cause)])
  }

  function EntryOf(op: Op): Pc {
    match op
    case Write(bytes) => WriteCheck(bytes)
    case Resume => ResumeCheck(1, None, [], [])
    case StandbyOrPause => PauseCheck(1)
    case SetParameters(kvpairs) => SuspendParam(RequestOf(AudioParams.Parse(kvpairs)))
    case Close => CloseCheck
  }

  /** out_resume has failed, or has succeeded. */
  function AfterFailure(write: Option<nat>): Pc {
    if write.Some? then GiveUp(write.value) else Idle
  }

  function AfterSuccess(write: Option<nat>, seen: seq<StreamState>, gaps: seq<seq<Callback>>): Pc {
    if write.Some? then CallWriteData(write.value, seen, gaps) else Idle
  }

  function AfterSuspend(rest: Option<Request>): Pc {
    if rest.Some? then DisableAfterSuspend(rest.value) else Idle
  }

  // ---------- the stream mutex ----------

  /** Between the steps of an operation that keeps the mutex. */
  predicate Inside(pc: Pc) {
    || ((pc.ResumeCheck? || pc.PauseCheck?) && pc.step != 1) || pc.CallStart? || pc.AwaitStarted?
    || pc.CallSuspend? || pc.AwaitSuspended? || pc.DisableAfterSuspend?
    || pc.StopParam? || pc.ClosingParam? || pc.ExitingParam?
  }

  /** The step begins by taking the mutex. */
  predicate Locks(pc: Pc) {
    pc.WriteCheck? || ((pc.ResumeCheck? || pc.PauseCheck?) && pc.step == 1) || pc.CountWritten? || pc.SuspendParam?
  }

  predicate CanGo(s: State, t: Thread, choice: Choice) {
    var pc := PcOf(s, t);
    && pc != Idle
    && (Locks(pc) ==> s.mutex.None?)
    && (pc.AwaitStarted? ==> WaitAnswer(Starting, s.port.state, choice.timedOut).Some?)
    && (pc.AwaitSuspended? ==> WaitAnswer(Suspending, s.port.state, choice.timedOut).Some?)
  }

  /** Closing deletes the stream, so nobody may be using it or use it afterwards. */
  ghost predicate Enabled(s: State, a: Action) {
    match a
    case Call(t, op) => !s.closed && PcOf(s, t) == Idle && (op == Close ==> forall u :: PcOf(s, u) == Idle)
    case Go(t, choice) => CanGo(s, t, choice)
    case Deliver(_, _) => true
  }

  /** Where the thread goes next. */
  function NextPc(port: Port, heard: seq<Callback>, pc: Pc, choice: Choice): Pc {
    var state := port.state;
    match pc
    case WriteCheck(bytes) =>
      if state == Started then CallWriteData(bytes, [state], []) else ResumeCheck(1, Some(bytes), [state], [])
    case ResumeCheck(step, write, seen, gaps) =>
      var gaps' := if step == 1 then gaps else gaps + [heard];
      if state == LeavesAt(step) then (if step == 1 then CallStart(write, seen + [state]) else AfterFailure(write))
      else if step < 4 then ResumeCheck(step + 1, write, seen + [state], gaps')
      else AfterSuccess(write, seen + [state], gaps')
    case CallStart(write, seen) =>
      if port.cookie.Some? && state == Standby && choice.accepted then AwaitStarted(write, seen)
      else AfterFailure(write)
    case AwaitStarted(write, seen) =>
      if WaitAnswer(Starting, state, choice.timedOut) == Some(true) then AfterSuccess(write, seen + [state], [])
      else AfterFailure(write)
    case CallWriteData(bytes, _, _) => CountWritten(bytes, if port.cookie.Some? then choice.written else 0)
    case PauseCheck(step) =>
      if step == 1 then (if state == Started then CallSuspend(None) else PauseCheck(2))
      else if step == 2 && state != Starting then PauseCheck(3)
      else Idle
    case CallSuspend(rest) =>
      if port.cookie.Some? && state == Started && choice.accepted then AwaitSuspended(rest) else AfterSuspend(rest)
    case AwaitSuspended(rest) => AfterSuspend(rest)
    case DisableAfterSuspend(request) => ClosingParam(request)
    case SuspendParam(request) =>
      if request.a2dpSuspended == Some(true) && IsA2dp(port.session) then
        (if state == Started then CallSuspend(Some(request)) else StopParam(request))
      else ClosingParam(request)
    case StopParam(request) => ClosingParam(request)
    case ClosingParam(request) => ExitingParam(request)
    case _ => Idle
  }

  const EIO := 5
  const EBUSY := 16
  const EINVAL := 22

  /** What the operation returns if this is its last step: an error code, or for a write the bytes taken or dropped. */
  function AnswerOf(port: Port, pc: Pc, choice: Choice): int {
    var state := port.state;
    match pc
    case ResumeCheck(step, _, _, _) => if state != LeavesAt(step) then 0 else if step == 4 then -EINVAL else -EBUSY
    case CallStart(_, _) => -EIO
    case AwaitStarted(_, _) => if WaitAnswer(Starting, state, choice.timedOut) == Some(true) then 0 else -EIO
    case GiveUp(bytes) => if state == Disabled then bytes else 0
    case CountWritten(_, written) => written
    case PauseCheck(step) => if state == (if step == 2 then Starting else Suspending) then -EBUSY else 0
    case CallSuspend(_) => -EIO
    case AwaitSuspended(_) => if WaitAnswer(Suspending, state, choice.timedOut) == Some(true) then 0 else -EIO
    case _ => 0
  }

  /** What the step does to the port. */
  function NextPort(port: Port, pc: Pc): Port {
    match pc
    case CallStart(_, _) => StartRequested(port)
    case CallSuspend(_) => SuspendRequested(port)
    case DisableAfterSuspend(_) => port.(state := Disabled)
    case SuspendParam(request) =>
      if request.a2dpSuspended == Some(false) && IsA2dp(port.session) && port.state == Disabled
      then port.(state := Standby) else port
    case StopParam(_) => if port.state != Disabled then StopRequested(port) else port
    case ClosingParam(request) => if request.closing && port.state != Disabled then StopRequested(port) else port
    case ExitingParam(request) => if request.exiting && port.state != Disabled then StopRequested(port) else port
    case CloseCheck => (if port.state != Disabled then StopRequested(port) else port).(cookie := None)
    case _ => port
  }

  /** What the step does to the two frame counters. */
  function NextFrames(s: State, pc: Pc, frameSize: nat): (nat, nat)
    requires 0 < frameSize
  {
    var both, live := (s.framesRendered, s.framesPresented), s.port.state != Disabled;
    match pc
    case CountWritten(bytes, written) =>
      if written > 0 then (both.0 + bytes / frameSize, both.1 + bytes / frameSize) else both
    case PauseCheck(step) => if step == 1 && s.port.state == Started then (0, both.1) else both
    case SuspendParam(request) =>
      if request.a2dpSuspended == Some(true) && IsA2dp(s.port.session) then (0, both.1) else both
    case ClosingParam(request) => if request.closing && live then (0, 0) else both
    case ExitingParam(request) => if request.exiting && live then (0, 0) else both
    case CloseCheck => if live then (0, 0) else both
    case _ => both
  }

  /** The thread is at `pc` from now on, and holds the mutex accordingly. */
  function Moved(s: State, t: Thread, pc: Pc): State {
    s.(pcs := s.pcs[t := pc],
       mutex := if Inside(pc) then Some(t) else if s.mutex == Some(t) then None else s.mutex,
       heard := if Inside(pc) then [] else s.heard)
  }

  function Next(s: State, a: Action, frameSize: nat): State
    requires 0 < frameSize
  {
    match a
    case Call(t, op) => s.(pcs := s.pcs[t := EntryOf(op)], closed := s.closed || op == Close)
    case Go(t, choice) =>
      var pc := PcOf(s, t);
      var frames, pc' := NextFrames(s, pc, frameSize), NextPc(s.port, s.heard, pc, choice);
      Moved(WithPort(s, NextPort(s.port, pc), Stepped(pc)), t, pc').(
        framesRendered := frames.0, framesPresented := frames.1,
        answers := if pc' == Idle then s.answers[t := AnswerOf(s.port, pc, choice)] else s.answers)
    case Deliver(cookie, c) =>
      WithPort(s, OnCallback(s.port, cookie, c), Heard(c)).(
        heard := if s.port.cookie == Some(cookie) then s.heard + [c] else s.heard)
  }

  // ---------- which state follows which ----------

  /**
   The transitions a port can make, each with its cause: Starting by a Start from
   Standby, Started by a success callback, Suspending by a Suspend, Standby by a
   control result, and out of Disabled only by an A2dpSuspended parameter other
   than "true" on an A2DP port.
   */
  predicate Follows(from: StreamState, to: Entry, session: Session) {
    var cause := to.cause;
    match to.state
    case Disabled => cause != Opening
    case Standby =>
      || (from in {Starting, Started, Suspending} && cause.Heard? && cause.callback.Result?)
      || (from == Disabled && IsA2dp(session) && cause.Stepped? && cause.pc.SuspendParam? &&
          cause.pc.request.a2dpSuspended == Some(false))
    case Starting => from == Standby && cause.Stepped? && cause.pc.CallStart?
    case Started => from == Starting && cause == Heard(Result(Success))
    case Suspending => from == Started && cause.Stepped? && cause.pc.CallSuspend?
    case Unknown => false
  }

  /** One step changes the port only in these ways, and records the cause. */
  lemma {:induction false} TransitionCause(s: State, a: Action, frameSize: nat)
    requires 0 < frameSize && Enabled(s, a) && s.port.state != Unknown
    ensures var s' := Next(s, a, frameSize);
            && s'.port.session == s.port.session && s'.port.state != Unknown
            && (s'.port.state == s.port.state ==> s'.trail == s.trail)
            && (s'.port.state != s.port.state ==>
                  exists e :: s'.trail == s.trail + [e] && e.state == s'.port.state &&
                              Follows(s.port.state, e, s.port.session))
  {
    var s' := Next(s, a, frameSize);
    if s'.port.state != s.port.state {
      var e := Entry(s'.port.state, if a.Go? then Stepped(PcOf(s, a.thread)) else Heard(a.callback));
      assert s'.trail == s.trail + [e];
      assert Follows(s.port.state, e, s.port.session);
    }
  }

  // ---------- what out_write has seen ----------

  /** The reads of a chain of comparisons that has found no match so far. */
  ghost predicate ChainOf(first: nat, steps: nat, seen: seq<StreamState>, gaps: seq<seq<Callback>>) {
    && |seen| == first + steps && |gaps| == (if steps == 0 then 0 else steps - 1)
    && (forall i :: first <= i < first + steps ==> seen[i] != LeavesAt(i - first + 1))
    && (forall k :: 0 <= k < |gaps| ==> seen[first + k + 1] == AfterCallbacks(seen[first + k], gaps[k]))
  }

  ghost predicate PcSound(pc: Pc) {
    match pc
    case ResumeCheck(step, write, seen, gaps) =>
      && Unknown !in seen && 1 <= step <= 4
      && (write.Some? ==> seen != [] && seen[0] != Started)
      && ChainOf(if write.Some? then 1 else 0, step - 1, seen, gaps)
    case CallStart(write, seen) => Unknown !in seen && |seen| == if write.Some? then 2 else 1
    case AwaitStarted(write, seen) => Unknown !in seen && |seen| == if write.Some? then 2 else 1
    case CallWriteData(_, seen, gaps) =>
      && Unknown !in seen
      && (if |seen| == 5 then seen[0] != Started && ChainOf(1, 4, seen, gaps) else Started in seen)
    case _ => true
  }

  /** While a thread keeps the mutex, only callbacks have moved the port since its last step. */
  ghost predicate Linked(pc: Pc, state: StreamState, heard: seq<Callback>) {
    match pc
    case ResumeCheck(step, _, seen, _) => step != 1 && seen != [] ==> state == AfterCallbacks(seen[|seen| - 1], heard)
    case AwaitStarted(_, _) => state == AfterCallbacks(Starting, heard)
    case AwaitSuspended(_) => state == AfterCallbacks(Suspending, heard)
    case _ => true
  }

  ghost predicate TrailSound(s: State) {
    && 0 < |s.trail| && s.trail[0] == Entry(Standby, Opening) && s.trail[|s.trail| - 1].state == s.port.state
    && (forall i :: 0 < i < |s.trail| ==> Follows(s.trail[i - 1].state, s.trail[i], s.port.session))
    && (forall i :: 0 < i < |s.trail| ==> s.trail[i].state != s.trail[i - 1].state)
  }

  ghost predicate ThreadsSound(s: State) {
    && (forall t :: PcSound(PcOf(s, t)))
    && (forall t: Thread :: Inside(PcOf(s, t)) <==> s.mutex == Some(t))
    && (forall t :: Linked(PcOf(s, t), s.port.state, s.heard))
    && (forall t :: PcOf(s, t).CloseCheck? ==> s.closed)
    && (s.closed ==> forall t :: PcOf(s, t) == Idle || PcOf(s, t) == CloseCheck)
  }

  ghost predicate Inv(s: State) {
    && s.port.state != Unknown
    && s.framesRendered <= s.framesPresented
    && ThreadsSound(s)
    && TrailSound(s)
  }

  // ---------- every step keeps the invariant ----------

  /** One more comparison that finds no match. */
  lemma {:induction false} ChainGrows(
      first: nat, steps: nat, seen: seq<StreamState>, gaps: seq<seq<Callback>>,
      state: StreamState, heard: seq<Callback>)
    requires ChainOf(first, steps, seen, gaps) && state != LeavesAt(steps + 1)
    requires 0 < steps ==> state == AfterCallbacks(seen[|seen| - 1], heard)
    ensures ChainOf(first, steps + 1, seen + [state], if steps == 0 then gaps else gaps + [heard])
  {
    var seen', gaps' := seen + [state], if steps == 0 then gaps else gaps + [heard];
    assert forall i :: 0 <= i < |seen| ==> seen'[i] == seen[i];
    forall k | 0 <= k < |gaps'| ensures seen'[first + k + 1] == AfterCallbacks(seen'[first + k], gaps'[k]) {
      if k < |gaps| { assert gaps'[k] == gaps[k]; }
    }
  }

  lemma {:induction false} NextPcSound(port: Port, heard: seq<Callback>, pc: Pc, choice: Choice)
    requires PcSound(pc) && Linked(pc, port.state, heard) && port.state != Unknown
    ensures PcSound(NextPc(port, heard, pc, choice))
  {
    if pc.ResumeCheck? { ResumeSound(port, heard, pc, choice); }
  }

  lemma {:induction false} ResumeSound(port: Port, heard: seq<Callback>, pc: Pc, choice: Choice)
    requires pc.ResumeCheck? && PcSound(pc) && Linked(pc, port.state, heard) && port.state != Unknown
    ensures PcSound(NextPc(port, heard, pc, choice))
  {
    if port.state != LeavesAt(pc.step) {
      var first := if pc.write.Some? then 1 else 0;
      ChainGrows(first, pc.step - 1, pc.seen, pc.gaps, port.state, heard);
      if pc.write.Some? { assert (pc.seen + [port.state])[0] == pc.seen[0]; }
    }
  }

  /** The state in which a step leaves its own thread. */
  lemma {:induction false} NextPcLinked(port: Port, heard: seq<Callback>, pc: Pc, choice: Choice)
    ensures var pc' := NextPc(port, heard, pc, choice);
            Linked(pc', NextPort(port, pc).state, if Inside(pc') then [] else heard)
  {
  }

  lemma {:induction false} CallbackKeepsLink(pc: Pc, state: StreamState, heard: seq<Callback>, c: Callback)
    requires Linked(pc, state, heard)
    ensures Linked(pc, AfterCallback(state, c), heard + [c])
  {
    if pc.ResumeCheck? && pc.step != 1 && pc.seen != [] { OneMoreCallback(pc.seen[|pc.seen| - 1], heard, c); }
    OneMoreCallback(Starting, heard, c);
    OneMoreCallback(Suspending, heard, c);
  }

  /** The other threads do not notice a step: if one of them holds the mutex, the step leaves the port alone. */
  lemma {:induction false} OthersUndisturbed(s: State, t: Thread, choice: Choice, u: Thread)
    requires ThreadsSound(s) && CanGo(s, t, choice) && u != t
    ensures var heard' := if Inside(NextPc(s.port, s.heard, PcOf(s, t), choice)) then [] else s.heard;
            Linked(PcOf(s, u), NextPort(s.port, PcOf(s, t)).state, heard')
    ensures Inside(PcOf(s, u)) ==> !Inside(NextPc(s.port, s.heard, PcOf(s, t), choice)) && s.mutex == Some(u)
  {
    var pc := PcOf(s, t);
    assert Inside(pc) <==> s.mutex == Some(t);
    assert Inside(PcOf(s, u)) <==> s.mutex == Some(u);
    if Inside(PcOf(s, u)) {
      assert pc.GiveUp? || pc.CallWriteData? || pc.CloseCheck?;
      assert Linked(PcOf(s, u), s.port.state, s.heard);
    }
  }

  lemma {:induction false} GoKeepsThreads(s: State, t: Thread, choice: Choice, frameSize: nat)
    requires 0 < frameSize && ThreadsSound(s) && CanGo(s, t, choice) && s.port.state != Unknown
    ensures ThreadsSound(Next(s, Go(t, choice), frameSize))
  {
    var s' := Next(s, Go(t, choice), frameSize);
    OwnThreadSound(s, t, choice, frameSize);
    forall u
      ensures PcSound(PcOf(s', u)) && (Inside(PcOf(s', u)) <==> s'.mutex == Some(u))
      ensures Linked(PcOf(s', u), s'.port.state, s'.heard)
      ensures u != t ==> PcOf(s', u) == PcOf(s, u)
    {
      if u != t { OtherThreadSound(s, t, choice, frameSize, u); }
    }
  }

  lemma {:induction false} OwnThreadSound(s: State, t: Thread, choice: Choice, frameSize: nat)
    requires 0 < frameSize && ThreadsSound(s) && CanGo(s, t, choice) && s.port.state != Unknown
    ensures var s' := Next(s, Go(t, choice), frameSize);
            && PcSound(PcOf(s', t)) && (Inside(PcOf(s', t)) <==> s'.mutex == Some(t))
            && Linked(PcOf(s', t), s'.port.state, s'.heard)
            && PcOf(s', t) != CloseCheck && (s.closed ==> PcOf(s', t) == Idle)
  {
    NextPcSound(s.port, s.heard, PcOf(s, t), choice);
    NextPcLinked(s.port, s.heard, PcOf(s, t), choice);
  }

  lemma {:induction false} OtherThreadSound(s: State, t: Thread, choice: Choice, frameSize: nat, u: Thread)
    requires 0 < frameSize && ThreadsSound(s) && CanGo(s, t, choice) && u != t
    ensures var s' := Next(s, Go(t, choice), frameSize);
            && PcOf(s', u) == PcOf(s, u) && PcSound(PcOf(s', u)) && (Inside(PcOf(s', u)) <==> s'.mutex == Some(u))
            && Linked(PcOf(s', u), s'.port.state, s'.heard)
  {
    OthersUndisturbed(s, t, choice, u);
  }

  lemma {:induction false} CallKeepsThreads(s: State, t: Thread, op: Op, frameSize: nat)
    requires 0 < frameSize && ThreadsSound(s) && Enabled(s, Call(t, op))
    ensures ThreadsSound(Next(s, Call(t, op), frameSize))
  {
    var s' := Next(s, Call(t, op), frameSize);
    forall u | u != t ensures PcOf(s', u) == PcOf(s, u) {}
    assert PcOf(s', t) == EntryOf(op);
    assert Inside(PcOf(s, t)) <==> s.mutex == Some(t);
  }

  lemma {:induction false} DeliverKeepsThreads(s: State, cookie: Cookie, c: Callback, frameSize: nat)
    requires 0 < frameSize && ThreadsSound(s)
    ensures ThreadsSound(Next(s, Deliver(cookie, c), frameSize))
  {
    var s' := Next(s, Deliver(cookie, c), frameSize);
    forall u ensures PcOf(s', u) == PcOf(s, u) && Linked(PcOf(s', u), s'.port.state, s'.heard) {
      CallbackKeepsLink(PcOf(s, u), s.port.state, s.heard, c);
    }
  }

  lemma {:induction false} TrailGrows(s: State, s': State, e: Entry)
    requires TrailSound(s) && s'.port.session == s.port.session && s'.port.state != s.port.state
    requires s'.trail == s.trail + [e] && e.state == s'.port.state && Follows(s.port.state, e, s.port.session)
    ensures TrailSound(s')
  {
  }

  lemma {:induction false} StepKeepsInv(s: State, a: Action, frameSize: nat)
    requires 0 < frameSize && Inv(s) && Enabled(s, a)
    ensures Inv(Next(s, a, frameSize))
  {
    var s' := Next(s, a, frameSize);
    TransitionCause(s, a, frameSize);
    match a {
      case Call(t, op) => CallKeepsThreads(s, t, op, frameSize);
      case Go(t, choice) => GoKeepsThreads(s, t, choice, frameSize);
      case Deliver(cookie, c) => DeliverKeepsThreads(s, cookie, c, frameSize);
    }
    if s'.port.state != s.port.state {
      var e :| s'.trail == s.trail + [e] && e.state == s'.port.state && Follows(s.port.state, e, s.port.session);
      TrailGrows(s, s', e);
    }
  }

  // ---------- every run ----------

  /** A stream opened on a port, and any sequence of enabled steps; None when one was not enabled. */
  ghost function Run(cookie: Cookie, session: Session, frameSize: nat, actions: seq<Action>): Option<State>
    requires 0 < frameSize
  {
    if actions == [] then Some(Opened(cookie, session))
    else
      var before, a := Run(cookie, session, frameSize, actions[..|actions| - 1]), actions[|actions| - 1];
      if before.Some? && Enabled(before.value, a) then Some(Next(before.value, a, frameSize)) else None
  }

  lemma {:induction false} AlwaysInv(cookie: Cookie, session: Session, frameSize: nat, actions: seq<Action>)
    requires 0 < frameSize && Run(cookie, session, frameSize, actions).Some?
    ensures Inv(Run(cookie, session, frameSize, actions).value)
    ensures Run(cookie, session, frameSize, actions).value.port.session == session
  {
    if actions == [] {
      assert forall t :: PcOf(Opened(cookie, session), t) == Idle;
    } else {
      var before := actions[..|actions| - 1];
      AlwaysInv(cookie, session, frameSize, before);
      StepKeepsInv(Run(cookie, session, frameSize, before).value, actions[|actions| - 1], frameSize);
      TransitionCause(Run(cookie, session, frameSize, before).value, actions[|actions| - 1], frameSize);
    }
  }

  /** In every run Started comes by a success callback right after Starting, and that by a Start from Standby. */
  lemma {:induction false} StartedOnlyByStarting(
      cookie: Cookie, session: Session, frameSize: nat, actions: seq<Action>, i: nat)
    requires 0 < frameSize && Run(cookie, session, frameSize, actions).Some?
    requires i < |Run(cookie, session, frameSize, actions).value.trail|
    requires Run(cookie, session, frameSize, actions).value.trail[i].state == Started
    ensures var trail := Run(cookie, session, frameSize, actions).value.trail;
            && 2 <= i && trail[i].cause == Heard(Result(Success))
            && trail[i - 1].state == Starting && trail[i - 1].cause.Stepped? && trail[i - 1].cause.pc.CallStart?
            && trail[i - 2].state == Standby
  {
    AlwaysInv(cookie, session, frameSize, actions);
    var s := Run(cookie, session, frameSize, actions).value;
    assert Follows(s.trail[i - 1].state, s.trail[i], session);
    assert Follows(s.trail[i - 2].state, s.trail[i - 1], session);
  }

  /**
   In every run Disabled is left only for Standby, only on an A2DP port and only by
   an A2dpSuspended parameter other than "true"; on any other port it is final.
   */
  lemma {:induction false} DisabledIsFinal(
      cookie: Cookie, session: Session, frameSize: nat, actions: seq<Action>, i: nat)
    requires 0 < frameSize && Run(cookie, session, frameSize, actions).Some?
    requires i < |Run(cookie, session, frameSize, actions).value.trail|
    requires Run(cookie, session, frameSize, actions).value.trail[i].state == Disabled
    ensures var s := Run(cookie, session, frameSize, actions).value;
            && (!IsA2dp(session) ==> i == |s.trail| - 1 && s.port.state == Disabled)
            && (i + 1 < |s.trail| ==>
                  var e := s.trail[i + 1];
                  && e.state == Standby && e.cause.Stepped? && e.cause.pc.SuspendParam?
                  && e.cause.pc.request.a2dpSuspended == Some(false))
  {
    AlwaysInv(cookie, session, frameSize, actions);
    var s := Run(cookie, session, frameSize, actions).value;
    if i + 1 < |s.trail| { assert Follows(s.trail[i].state, s.trail[i + 1], session); }
  }

  // ---------- what a client can rely on ----------

  /** The port slipped through all the comparisons of out_resume. */
  predicate Missed(seen: seq<StreamState>, gaps: seq<seq<Callback>>) {
    |seen| == 5 && |gaps| == 3 && Slips(seen[1], gaps)
  }

  /**
   When a thread is about to call WriteData, it has seen Started in the same
   out_write, except exactly when out_resume found a Start or Suspend under way that
   a control result then ended before the comparison made for it, and the session
   did not change. So data written unseen goes to a port that was in Standby at the
   last comparison.
   */
  lemma {:induction false} WriteDataAfterStarted(
      cookie: Cookie, session: Session, frameSize: nat, actions: seq<Action>, t: Thread)
    requires 0 < frameSize && Run(cookie, session, frameSize, actions).Some?
    requires PcOf(Run(cookie, session, frameSize, actions).value, t).CallWriteData?
    ensures var pc := PcOf(Run(cookie, session, frameSize, actions).value, t);
            && (Started in pc.seen <==> !Missed(pc.seen, pc.gaps))
            && (Missed(pc.seen, pc.gaps) ==> pc.seen[4] == Standby)
  {
    AlwaysInv(cookie, session, frameSize, actions);
    var pc := PcOf(Run(cookie, session, frameSize, actions).value, t);
    assert PcSound(pc);
    if |pc.seen| == 5 { UnseenIff(pc.seen, pc.gaps); }
  }

  lemma {:induction false} UnseenIff(seen: seq<StreamState>, gaps: seq<seq<Callback>>)
    requires |seen| == 5 && Unknown !in seen && seen[0] != Started && ChainOf(1, 4, seen, gaps)
    ensures Started in seen <==> !Slips(seen[1], gaps)
    ensures Slips(seen[1], gaps) ==> seen[4] == Standby
  {
    var four := seen[1..];
    assert forall k :: 0 <= k < 4 ==> four[k] == seen[1 + k];
    forall k | 0 <= k < 3 ensures four[k + 1] == AfterCallbacks(four[k], gaps[k]) {
      assert seen[1 + k + 1] == AfterCallbacks(seen[1 + k], gaps[k]);
    }
    assert four[0] in seen;
    FallsThroughIff(four, gaps);
    if Slips(seen[1], gaps) {
      forall i | 0 <= i < 5 ensures seen[i] != Started { assert i > 0 ==> seen[i] == four[i - 1]; }
    }
  }

  /**
   What a waiting Start answers is decided by the callbacks since its request: true
   exactly when the first one is a success and nothing but failures followed.
   */
  lemma {:induction false} StartAnswers(
      cookie: Cookie, session: Session, frameSize: nat, actions: seq<Action>, t: Thread, timedOut: bool)
    requires 0 < frameSize && Run(cookie, session, frameSize, actions).Some?
    requires PcOf(Run(cookie, session, frameSize, actions).value, t).AwaitStarted?
    ensures var s := Run(cookie, session, frameSize, actions).value;
            WaitAnswer(Starting, s.port.state, timedOut) == Some(true) <==>
              Change !in s.heard && s.heard != [] && !StartUndone(s.heard)
  {
    AlwaysInv(cookie, session, frameSize, actions);
    var s := Run(cookie, session, frameSize, actions).value;
    assert Linked(PcOf(s, t), s.port.state, s.heard);
    AtRest(Starting, s.heard);
    if Change !in s.heard { StartOutcome(s.heard); }
  }

  /** And a waiting Suspend: true exactly when the first callback is a success and the session did not change. */
  lemma {:induction false} SuspendAnswers(
      cookie: Cookie, session: Session, frameSize: nat, actions: seq<Action>, t: Thread, timedOut: bool)
    requires 0 < frameSize && Run(cookie, session, frameSize, actions).Some?
    requires PcOf(Run(cookie, session, frameSize, actions).value, t).AwaitSuspended?
    ensures var s := Run(cookie, session, frameSize, actions).value;
            WaitAnswer(Suspending, s.port.state, timedOut) == Some(true) <==>
              Change !in s.heard && SuspendGranted(s.heard)
  {
    AlwaysInv(cookie, session, frameSize, actions);
    var s := Run(cookie, session, frameSize, actions).value;
    assert Linked(PcOf(s, t), s.port.state, s.heard);
    AtRest(Suspending, s.heard);
    if Change !in s.heard { SuspendOutcome(s.heard); }
  }

  // ---------- a run in which data is written unseen ----------

  lemma {:induction false} Extend(cookie: Cookie, session: Session, frameSize: nat, actions: seq<Action>, a: Action)
    requires 0 < frameSize && Run(cookie, session, frameSize, actions).Some?
    requires Enabled(Run(cookie, session, frameSize, actions).value, a)
    ensures Run(cookie, session, frameSize, actions + [a]) ==
            Some(Next(Run(cookie, session, frameSize, actions).value, a, frameSize))
  {
    assert (actions + [a])[..|actions|] == actions;
  }

  /** Caller 0 is at `pc` of a stream that nobody else uses; its trail and counters are left open. */
  ghost predicate At(actions: seq<Action>, state: StreamState, pc: Pc, heard: seq<Callback>) {
    var r := Run(7, A2dpSoftware, 4, actions);
    && r.Some? && r.value.port == Port(state, Some(7), A2dpSoftware) && PcOf(r.value, 0) == pc
    && !r.value.closed && r.value.mutex == (if Inside(pc) then Some(0) else None)
    && (Inside(pc) ==> r.value.heard == heard)
  }

  ghost function Presented(actions: seq<Action>): nat
    requires Run(7, A2dpSoftware, 4, actions).Some?
  {
    Run(7, A2dpSoftware, 4, actions).value.framesPresented
  }

  lemma {:induction false} Calls(actions: seq<Action>, state: StreamState, op: Op) returns (more: seq<Action>)
    requires At(actions, state, Idle, []) && op != Close
    ensures At(more, state, EntryOf(op), []) && Presented(more) == Presented(actions)
  {
    more := actions + [Call(0, op)];
    Extend(7, A2dpSoftware, 4, actions, Call(0, op));
  }

  lemma {:induction false} Goes(actions: seq<Action>, state: StreamState, pc: Pc, heard: seq<Callback>, choice: Choice)
    returns (more: seq<Action>)
    requires At(actions, state, pc, heard) && CanGo(Run(7, A2dpSoftware, 4, actions).value, 0, choice)
    requires NextPort(Port(state, Some(7), A2dpSoftware), pc).cookie == Some(7)
    ensures var port := Port(state, Some(7), A2dpSoftware);
            At(more, NextPort(port, pc).state, NextPc(port, heard, pc, choice), [])
    ensures Presented(more) == NextFrames(Run(7, A2dpSoftware, 4, actions).value, pc, 4).1
  {
    more := actions + [Go(0, choice)];
    Extend(7, A2dpSoftware, 4, actions, Go(0, choice));
    var port, actual := Port(state, Some(7), A2dpSoftware), Run(7, A2dpSoftware, 4, actions).value.heard;
    NextPcIgnoresHeard(port, pc, choice, heard, actual);
  }

  /** Only the later comparisons of out_resume record what was heard. */
  lemma {:induction false} NextPcIgnoresHeard(port: Port, pc: Pc, choice: Choice, a: seq<Callback>, b: seq<Callback>)
    requires a == b || !pc.ResumeCheck? || pc.step == 1
    ensures NextPc(port, a, pc, choice) == NextPc(port, b, pc, choice)
  {
  }

  lemma {:induction false} Hears(actions: seq<Action>, state: StreamState, pc: Pc, heard: seq<Callback>, c: Callback)
    returns (more: seq<Action>)
    requires At(actions, state, pc, heard)
    ensures At(more, AfterCallback(state, c), pc, heard + [c]) && Presented(more) == Presented(actions)
  {
    more := actions + [Deliver(7, c)];
    Extend(7, A2dpSoftware, 4, actions, Deliver(7, c));
  }

  lemma {:induction false} FindsStandby() returns (actions: seq<Action>)
    ensures At(actions, Standby, CallStart(None, [] + [Standby]), [])
  {
    assert Run(7, A2dpSoftware, 4, []) == Some(Opened(7, A2dpSoftware));
    actions := Calls([], Standby, Resume);
    actions := Goes(actions, Standby, ResumeCheck(1, None, [], []), [], Choice(true, false, 0));
  }

  /** A client starts the stream. */
  lemma {:induction false} StartsStream() returns (actions: seq<Action>)
    ensures At(actions, Started, Idle, [])
  {
    var yes := Choice(true, false, 0);
    actions := FindsStandby();
    actions := Goes(actions, Standby, CallStart(None, [] + [Standby]), [], yes);
    actions := Hears(actions, Starting, AwaitStarted(None, [] + [Standby]), [], Result(Success));
    actions := Goes(actions, Started, AwaitStarted(None, [] + [Standby]), [] + [Result(Success)], yes);
  }

  /** Then it puts the stream into standby, but the stack does not answer in time. */
  lemma {:induction false} Pauses() returns (actions: seq<Action>)
    ensures At(actions, Started, CallSuspend(None), [])
  {
    actions := StartsStream();
    actions := Calls(actions, Started, StandbyOrPause);
    actions := Goes(actions, Started, PauseCheck(1), [], Choice(true, false, 0));
  }

  lemma {:induction false} LeftSuspending() returns (actions: seq<Action>)
    ensures At(actions, Suspending, Idle, [])
  {
    var yes := Choice(true, false, 0);
    actions := Pauses();
    actions := Goes(actions, Started, CallSuspend(None), [], yes);
    actions := Goes(actions, Suspending, AwaitSuspended(None), [], Choice(true, true, 0));
  }

  /** Then it writes; the late answer arrives between the first and the second comparison of out_resume. */
  lemma {:induction false} AnsweredLate() returns (actions: seq<Action>)
    ensures At(actions, Standby, ResumeCheck(2, Some(4), [Suspending] + [Suspending], []), [Result(Success)])
  {
    var yes := Choice(true, false, 0);
    actions := LeftSuspending();
    actions := Calls(actions, Suspending, Write(4));
    actions := Goes(actions, Suspending, WriteCheck(4), [], yes);
    actions := Goes(actions, Suspending, ResumeCheck(1, Some(4), [Suspending], []), [], yes);
    var second := ResumeCheck(2, Some(4), [Suspending] + [Suspending], []);
    actions := Hears(actions, Suspending, second, [], Result(Success));
    assert [] + [Result(Success)] == [Result(Success)];
  }

  /** And so the stream writes to a port that is in standby, without having seen Started. */
  lemma {:induction false} WritesWithoutStarted() returns (actions: seq<Action>)
    ensures var r := Run(7, A2dpSoftware, 4, actions);
            && r.Some? && PcOf(r.value, 0).CallWriteData? && r.value.port.state == Standby
            && Started !in PcOf(r.value, 0).seen
  {
    var yes := Choice(true, false, 0);
    var two, one := [Suspending] + [Suspending], [] + [[Result(Success)]];
    actions := AnsweredLate();
    actions := Goes(actions, Standby, ResumeCheck(2, Some(4), two, []), [Result(Success)], yes);
    actions := Goes(actions, Standby, ResumeCheck(3, Some(4), two + [Standby], one), [], yes);
    actions := Goes(actions, Standby, ResumeCheck(4, Some(4), two + [Standby] + [Standby], one + [[]]), [], yes);
  }

  // ---------- what the frame counters count ----------

  /** A step that sets the presented frames back: a closing or exiting parameter, or the close, on a port in use. */
  predicate SetsBack(s: State, a: Action) {
    && a.Go? && s.port.state != Disabled && 0 < s.framesPresented
    && (var pc := PcOf(s, a.thread);
        pc.CloseCheck? || (pc.ClosingParam? && pc.request.closing) || (pc.ExitingParam? && pc.request.exiting))
  }

  /** The presented frames are promised never to go back. They do exactly in these steps, and then to zero. */
  lemma {:induction false} PresentedGoesBackIff(s: State, a: Action, frameSize: nat)
    requires 0 < frameSize && Enabled(s, a)
    ensures var s' := Next(s, a, frameSize);
            && (s'.framesPresented < s.framesPresented <==> SetsBack(s, a))
            && (SetsBack(s, a) ==> s'.framesPresented == 0)
  {
  }

  /** The frames a write adds are those the stack took exactly when it took none or all but part of a frame. */
  lemma {:induction false} CountsWrittenIff(s: State, t: Thread, choice: Choice, frameSize: nat)
    requires 0 < frameSize && PcOf(s, t).CountWritten? && CanGo(s, t, choice)
    ensures var pc := PcOf(s, t); var s' := Next(s, Go(t, choice), frameSize);
            s'.framesPresented - s.framesPresented == pc.written / frameSize <==>
              pc.written == 0 || pc.written / frameSize == pc.bytes / frameSize
  {
    var pc := PcOf(s, t);
    if pc.written == 0 { assert pc.written / frameSize == 0; }
  }

  lemma {:induction false} FindsStarted() returns (actions: seq<Action>)
    ensures At(actions, Started, CallWriteData(8, [Started], []), [])
  {
    actions := StartsStream();
    actions := Calls(actions, Started, Write(8));
    actions := Goes(actions, Started, WriteCheck(8), [], Choice(true, false, 0));
  }

  /** A run of one client in which the stack takes one of two frames and both are counted. */
  lemma {:induction false} CountsMoreThanWritten() returns (actions: seq<Action>)
    ensures At(actions, Started, CountWritten(8, 4), [])
    ensures var s := Run(7, A2dpSoftware, 4, actions).value;
            Next(s, Go(0, Choice(true, false, 0)), 4).framesPresented == s.framesPresented + 2
  {
    actions := FindsStarted();
    actions := Goes(actions, Started, CallWriteData(8, [Started], []), [], Choice(true, false, 4));
  }

  const CLOSING := "closing" + "=" + "true"

  lemma {:induction false} ClosingRequest()
    ensures RequestOf(AudioParams.Parse(CLOSING)) == Request(None, true, false)
  {
    AudioParams.ParsePair("closing", "true");
    assert "closing" != "A2dpSuspended" && "closing" != "exiting" by {
      assert |"closing"| == 7 && |"A2dpSuspended"| == 13;
      assert "closing"[0] == 'c' && "exiting"[0] == 'e';
    }
  }

  /** The same client then sends the closing parameter, and the presented frames are back at zero. */
  lemma {:induction false} PresentedGoesBack() returns (actions: seq<Action>)
    ensures var r := Run(7, A2dpSoftware, 4, actions);
            r.Some? && SetsBack(r.value, Go(0, Choice(true, false, 0)))
  {
    actions := SendsClosing();
    actions := Goes(actions, Started, SuspendParam(Request(None, true, false)), [], Choice(true, false, 0));
  }

  lemma {:induction false} SendsClosing() returns (actions: seq<Action>)
    ensures At(actions, Started, SuspendParam(Request(None, true, false)), []) && 0 < Presented(actions)
  {
    ClosingRequest();
    actions := CountsMoreThanWritten();
    actions := Goes(actions, Started, CountWritten(8, 4), [], Choice(true, false, 0));
    actions := Calls(actions, Started, SetParameters(CLOSING));
  }

  // ---------- positions ----------

  const MINIMUM_DELAY_MS := 50
  const MAXIMUM_DELAY_MS := 1000
  const EXTRA_AUDIO_SYNC_MS := 200

  /** The delay in use: the reported one when plausible, else one computed from the buffer. */
  function FeedingDelayMs(fetched: bool, delayReportNs: nat, framesCount: nat, sampleRate: nat): nat
    requires 0 < sampleRate
  {
    var reported := delayReportNs / 1000000;
    if fetched && MINIMUM_DELAY_MS < reported < MAXIMUM_DELAY_MS then reported
    else framesCount * 1000 / sampleRate + EXTRA_AUDIO_SYNC_MS
  }

  lemma {:induction false} DividesBetween(a: nat, b: nat)
    requires 0 < b
    ensures a / b * b <= a < (a / b + 1) * b
  {
  }

  /** The latency part of out_calculate_feeding_delay_ms; `fetched` says whether the port answered. */
  method FeedingLatency(fetched: bool, delayReportNs: nat, framesCount: nat, sampleRate: nat) returns (latencyMs: nat)
    requires 0 < sampleRate
    ensures latencyMs == FeedingDelayMs(fetched, delayReportNs, framesCount, sampleRate)
    ensures fetched && 51000000 <= delayReportNs < 1000000000 ==> latencyMs == delayReportNs / 1000000
    ensures !fetched || delayReportNs < 51000000 || 1000000000 <= delayReportNs ==>
              && EXTRA_AUDIO_SYNC_MS <= latencyMs
              && (latencyMs - EXTRA_AUDIO_SYNC_MS) * sampleRate <= framesCount * 1000
              && framesCount * 1000 < (latencyMs - EXTRA_AUDIO_SYNC_MS + 1) * sampleRate
  {
    DividesBetween(framesCount * 1000, sampleRate);
    latencyMs := delayReportNs / 1000000;
    if !fetched || latencyMs <= MINIMUM_DELAY_MS || MAXIMUM_DELAY_MS <= latencyMs {
      latencyMs := framesCount * 1000 / sampleRate + EXTRA_AUDIO_SYNC_MS;
    }
  }

  /**
   Its position part. Whatever the stack reports as absorbed, the position lies
   between two latencies and one latency behind the frames presented.
   */
  method PresentationPosition(s: State, absorbedFrames: nat, latencyFrames: nat) returns (frames: nat)
    ensures s.framesPresented - 2 * latencyFrames <= frames
    ensures latencyFrames <= s.framesPresented ==> frames <= s.framesPresented - latencyFrames
    ensures s.framesPresented <= latencyFrames ==> frames == 0
    ensures s.framesPresented - latencyFrames <= absorbedFrames <= s.framesPresented ==>
              frames == if latencyFrames < absorbedFrames then absorbedFrames - latencyFrames else 0
    ensures absorbedFrames < s.framesPresented - latencyFrames || s.framesPresented < absorbedFrames ==>
              frames == if latencyFrames < s.framesPresented then s.framesPresented - latencyFrames else 0
  {
    frames := absorbedFrames;
    if s.framesPresented < frames {
      frames := s.framesPresented;
    } else if s.framesPresented - frames > latencyFrames {
      frames := s.framesPresented;
    }
    if frames > latencyFrames {
      frames := frames - latencyFrames;
    } else {
      frames := 0;
    }
  }

  /** out_calculate_feeding_delay_ms as a whole. */
  method CalculateFeedingDelay(
      s: State, fetched: bool, delayReportNs: nat, absorbedBytes: nat, framesCount: nat,
      sampleRate: nat, frameSize: nat)
    returns (latencyMs: nat, frames: nat)
    requires 0 < sampleRate && 0 < frameSize
    ensures latencyMs == FeedingDelayMs(fetched, delayReportNs, framesCount, sampleRate)
    ensures var latency, absorbed := latencyMs * sampleRate / 1000, absorbedBytes / frameSize;
            && s.framesPresented - 2 * latency <= frames
            && (latency <= s.framesPresented ==> frames <= s.framesPresented - latency)
            && (s.framesPresented <= latency ==> frames == 0)
            && (s.framesPresented - latency <= absorbed <= s.framesPresented ==>
                  frames == if latency < absorbed then absorbed - latency else 0)
            && (absorbed < s.framesPresented - latency || s.framesPresented < absorbed ==>
                  frames == if latency < s.framesPresented then s.framesPresented - latency else 0)
  {
    latencyMs := FeedingLatency(fetched, delayReportNs, framesCount, sampleRate);
    var latencyFrames := latencyMs * sampleRate / 1000;
    frames := PresentationPosition(s, absorbedBytes / frameSize, latencyFrames);
  }

  /** out_get_render_position, with its conversion to 32 bits. */
  method RenderPosition(s: State, latencyMs: nat, sampleRate: nat) returns (dspFrames: nat)
    ensures var latency := latencyMs * sampleRate / 1000;
            && (s.framesRendered < latency ==> dspFrames == 0)
            && (latency <= s.framesRendered < latency + 0x1_0000_0000 ==> dspFrames == s.framesRendered - latency)
            && (latency <= s.framesRendered ==> dspFrames == (s.framesRendered - latency) % 0x1_0000_0000)
  {
    var latencyFrames := latencyMs * sampleRate / 1000;
    if s.framesRendered >= latencyFrames {
      dspFrames := (s.framesRendered - latencyFrames) % 0x1_0000_0000;
    } else {
      dspFrames := 0;
    }
  }

  /** Across all operations the rendered frames never exceed the presented ones. */
  lemma {:induction false} RenderedWithinPresented(
      cookie: Cookie, session: Session, frameSize: nat, actions: seq<Action>)
    requires 0 < frameSize && Run(cookie, session, frameSize, actions).Some?
    ensures var s := Run(cookie, session, frameSize, actions).value; s.framesRendered <= s.framesPresented
  {
    AlwaysInv(cookie, session, frameSize, actions);
  }
}
