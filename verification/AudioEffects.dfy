/**
 What the operations of an output stream bring about, in every run: which steps stop,
 start and suspend the port, told by the text of the parameters, and what the frame
 counters count.
 */
module AudioEffects {
  import opened Options
  import opened AudioPort
  import opened AudioStream
  import AudioParams

  // ---------- which call a thread is in ----------

  /** The operation that a thread called last. */
  function LastCall(actions: seq<Action>, t: Thread): Option<Op> {
    if actions == [] then None
    else
      var a := actions[|actions| - 1];
      if a.Call? && a.thread == t then Some(a.op) else LastCall(actions[..|actions| - 1], t)
  }

  /** A parameter has this value. */
  predicate Says(kvpairs: string, key: string, value: string) {
    var params := AudioParams.Parse(kvpairs);
    key in params && params[key] == value
  }

  predicate SaysOther(kvpairs: string, key: string, value: string) {
    key in AudioParams.Parse(kvpairs) && !Says(kvpairs, key, value)
  }

  /** The request is what the parameters of the call say. */
  predicate Asks(op: Option<Op>, r: Request) {
    && op.Some? && op.value.SetParameters?
    && (r.a2dpSuspended == Some(true) <==> Says(op.value.kvpairs, "A2dpSuspended", "true"))
    && (r.a2dpSuspended == Some(false) <==> SaysOther(op.value.kvpairs, "A2dpSuspended", "true"))
    && (r.closing <==> Says(op.value.kvpairs, "closing", "true"))
    && (r.exiting <==> Says(op.value.kvpairs, "exiting", "1"))
  }

  /** The thread is where its last call has brought it. */
  predicate Serves(pc: Pc, op: Option<Op>) {
    match pc
    case Idle => true
    case WriteCheck(bytes) => op == Some(Write(bytes))
    case ResumeCheck(_, write, _, _) => op == Some(Resumer(write))
    case CallStart(write, _) => op == Some(Resumer(write))
    case AwaitStarted(write, _) => op == Some(Resumer(write))
    case GiveUp(bytes) => op == Some(Write(bytes))
    case CallWriteData(bytes, _, _) => op == Some(Write(bytes))
    case CountWritten(bytes, _) => op == Some(Write(bytes))
    case PauseCheck(step) => op == Some(StandbyOrPause) && 1 <= step <= 3
    case CallSuspend(rest) => Suspender(rest, op)
    case AwaitSuspended(rest) => Suspender(rest, op)
    case DisableAfterSuspend(r) => Asks(op, r) && r.a2dpSuspended == Some(true)
    case SuspendParam(r) => Asks(op, r)
    case StopParam(r) => Asks(op, r) && r.a2dpSuspended == Some(true)
    case ClosingParam(r) => Asks(op, r)
    case ExitingParam(r) => Asks(op, r)
    case CloseCheck => op == Some(Close)
  }

  function Resumer(write: Option<nat>): Op {
    if write.Some? then Write(write.value) else Resume
  }

  predicate Suspender(rest: Option<Request>, op: Option<Op>) {
    if rest.None? then op == Some(StandbyOrPause) else Asks(op, rest.value) && rest.value.a2dpSuspended == Some(true)
  }

  lemma {:induction false} EntryServes(op: Op)
    ensures Serves(EntryOf(op), Some(op))
  {
  }

  lemma {:induction false} NextServes(port: Port, heard: seq<Callback>, pc: Pc, choice: Choice, op: Option<Op>)
    requires Serves(pc, op)
    ensures Serves(NextPc(port, heard, pc, choice), op)
  {
  }

  /** In every run each thread is at a step of the operation it called last, with the arguments of that call. */
  lemma {:induction false} AlwaysServes(
      cookie: Cookie, session: Session, frameSize: nat, actions: seq<Action>, t: Thread)
    requires 0 < frameSize && Run(cookie, session, frameSize, actions).Some?
    ensures Serves(PcOf(Run(cookie, session, frameSize, actions).value, t), LastCall(actions, t))
  {
    if actions != [] {
      var before, a := actions[..|actions| - 1], actions[|actions| - 1];
      AlwaysServes(cookie, session, frameSize, before, t);
      var s := Run(cookie, session, frameSize, before).value;
      match a
      case Call(u, op) => EntryServes(op);
      case Go(u, choice) => NextServes(s.port, s.heard, PcOf(s, t), choice, LastCall(before, t));
      case Deliver(_, _) =>
    }
  }

  // ---------- the port stays registered until the close, and obeys ----------

  /** The port is registered, or the stream has been closed: then it is disabled for good. */
  ghost predicate Registered(s: State, cookie: Cookie) {
    || s.port.cookie == Some(cookie)
    || (s.closed && s.port.cookie == None && s.port.state == Disabled && forall t :: PcOf(s, t) == Idle)
  }

  /** What the parameters asked for has been done once the thread is past it. */
  predicate Obeyed(pc: Pc, port: Port) {
    && ((pc.ClosingParam? || pc.ExitingParam?) && pc.request.a2dpSuspended == Some(true) && IsA2dp(port.session) ==>
          port.state == Disabled)
    && (pc.ExitingParam? && pc.request.closing ==> port.state == Disabled)
    && (pc.DisableAfterSuspend? || pc.StopParam? ==> IsA2dp(port.session))
    && ((pc.CallSuspend? || pc.AwaitSuspended?) && pc.rest.Some? ==> IsA2dp(port.session))
  }

  ghost predicate AllObeyed(s: State) {
    forall t :: Obeyed(PcOf(s, t), s.port)
  }

  lemma {:induction false} StepObeys(port: Port, heard: seq<Callback>, pc: Pc, choice: Choice)
    requires port.cookie.Some? && Obeyed(pc, port)
    ensures Obeyed(NextPc(port, heard, pc, choice), NextPort(port, pc))
  {
  }

  lemma {:induction false} GoKeepsObeyed(s: State, cookie: Cookie, t: Thread, choice: Choice, frameSize: nat)
    requires 0 < frameSize && Inv(s) && CanGo(s, t, choice) && Registered(s, cookie) && AllObeyed(s)
    ensures AllObeyed(Next(s, Go(t, choice), frameSize))
  {
    var s' := Next(s, Go(t, choice), frameSize);
    StepObeys(s.port, s.heard, PcOf(s, t), choice);
    forall u | u != t ensures Obeyed(PcOf(s', u), s'.port) {
      assert PcOf(s', u) == PcOf(s, u) && Obeyed(PcOf(s, u), s.port);
      if Inside(PcOf(s, u)) { OthersLeavePort(s, t, choice, u); }
    }
  }

  /** A thread that steps while another holds the mutex leaves the port alone. */
  lemma {:induction false} OthersLeavePort(s: State, t: Thread, choice: Choice, u: Thread)
    requires Inv(s) && CanGo(s, t, choice) && u != t && Inside(PcOf(s, u))
    ensures NextPort(s.port, PcOf(s, t)) == s.port
  {
    assert s.mutex == Some(u);
    assert Inside(PcOf(s, t)) <==> s.mutex == Some(t);
    assert PcOf(s, t).CloseCheck? ==> s.closed;
  }

  ghost predicate OneCloses(s: State) {
    forall t, u :: PcOf(s, t).CloseCheck? && PcOf(s, u).CloseCheck? ==> t == u
  }

  lemma {:induction false} GoKeepsRegistered(s: State, cookie: Cookie, t: Thread, choice: Choice, frameSize: nat)
    requires 0 < frameSize && Inv(s) && CanGo(s, t, choice) && Registered(s, cookie) && OneCloses(s)
    ensures Registered(Next(s, Go(t, choice), frameSize), cookie) && OneCloses(Next(s, Go(t, choice), frameSize))
  {
    var s' := Next(s, Go(t, choice), frameSize);
    forall u | u != t ensures PcOf(s', u) == PcOf(s, u) {}
    assert PcOf(s', t) != CloseCheck;
    if PcOf(s, t).CloseCheck? {
      forall u ensures PcOf(s', u) == Idle { assert u != t ==> PcOf(s, u) != CloseCheck; }
    }
  }

  lemma {:induction false} CallKeepsOrder(s: State, cookie: Cookie, t: Thread, op: Op, frameSize: nat)
    requires 0 < frameSize && Inv(s) && Enabled(s, Call(t, op)) && Registered(s, cookie) && OneCloses(s) && AllObeyed(s)
    ensures var s' := Next(s, Call(t, op), frameSize); Registered(s', cookie) && OneCloses(s') && AllObeyed(s')
  {
    var s' := Next(s, Call(t, op), frameSize);
    forall u | u != t ensures PcOf(s', u) == PcOf(s, u) {}
  }

  lemma {:induction false} DeliverKeepsOrder(s: State, cookie: Cookie, from: Cookie, c: Callback, frameSize: nat)
    requires 0 < frameSize && Registered(s, cookie) && OneCloses(s) && AllObeyed(s)
    ensures var s' := Next(s, Deliver(from, c), frameSize); Registered(s', cookie) && OneCloses(s') && AllObeyed(s')
  {
    var s' := Next(s, Deliver(from, c), frameSize);
    forall u ensures PcOf(s', u) == PcOf(s, u) {}
  }

  lemma {:induction false} AlwaysObeyed(cookie: Cookie, session: Session, frameSize: nat, actions: seq<Action>)
    requires 0 < frameSize && Run(cookie, session, frameSize, actions).Some?
    ensures var s := Run(cookie, session, frameSize, actions).value;
            Registered(s, cookie) && OneCloses(s) && AllObeyed(s)
  {
    if actions == [] {
      assert forall t :: PcOf(Opened(cookie, session), t) == Idle;
    } else {
      var before, a := actions[..|actions| - 1], actions[|actions| - 1];
      AlwaysObeyed(cookie, session, frameSize, before);
      AlwaysInv(cookie, session, frameSize, before);
      var s := Run(cookie, session, frameSize, before).value;
      match a
      case Call(t, op) => CallKeepsOrder(s, cookie, t, op, frameSize);
      case Go(t, choice) =>
        GoKeepsObeyed(s, cookie, t, choice, frameSize);
        GoKeepsRegistered(s, cookie, t, choice, frameSize);
      case Deliver(from, c) => DeliverKeepsOrder(s, cookie, from, c, frameSize);
    }
  }

  // ---------- what the parameters, the close, Start and Suspend do ----------

  /** The parameters ask for the stream to stop. */
  predicate StopAsked(kvpairs: string, session: Session) {
    || Says(kvpairs, "closing", "true")
    || Says(kvpairs, "exiting", "1")
    || (IsA2dp(session) && Says(kvpairs, "A2dpSuspended", "true"))
  }

  /** When out_set_parameters returns from parameters that ask for a stop, the port is disabled and still registered. */
  lemma {:induction false} ParametersDisable(
      cookie: Cookie, session: Session, frameSize: nat, actions: seq<Action>,
      t: Thread, choice: Choice, kvpairs: string)
    requires 0 < frameSize && Run(cookie, session, frameSize, actions).Some?
    requires LastCall(actions, t) == Some(SetParameters(kvpairs)) && StopAsked(kvpairs, session)
    requires var s := Run(cookie, session, frameSize, actions).value;
             CanGo(s, t, choice) && PcOf(Next(s, Go(t, choice), frameSize), t) == Idle
    ensures var s := Run(cookie, session, frameSize, actions).value;
            Next(s, Go(t, choice), frameSize).port == Port(Disabled, Some(cookie), session)
  {
    AlwaysServes(cookie, session, frameSize, actions, t);
    AlwaysObeyed(cookie, session, frameSize, actions);
    AlwaysInv(cookie, session, frameSize, actions);
    var s := Run(cookie, session, frameSize, actions).value;
    assert Obeyed(PcOf(s, t), s.port);
    assert PcOf(s, t).ExitingParam?;
  }

  /**
   What the single steps of out_set_parameters do to the port, by the text: a stop
   disables it, A2dpSuspended other than "true" brings a disabled A2DP port back to
   standby, A2dpSuspended "true" first suspends a started one, and nothing else happens.
   */
  lemma {:induction false} ParameterSteps(
      cookie: Cookie, session: Session, frameSize: nat, actions: seq<Action>,
      t: Thread, choice: Choice, kvpairs: string)
    requires 0 < frameSize && Run(cookie, session, frameSize, actions).Some?
    requires LastCall(actions, t) == Some(SetParameters(kvpairs))
    requires CanGo(Run(cookie, session, frameSize, actions).value, t, choice)
    ensures var s := Run(cookie, session, frameSize, actions).value;
            var pc, state, s' := PcOf(s, t), s.port.state, Next(s, Go(t, choice), frameSize);
            var after, next := s'.port.state, PcOf(s', t);
            && (pc.SuspendParam? ==>
                  after == if IsA2dp(session) && SaysOther(kvpairs, "A2dpSuspended", "true") && state == Disabled
                           then Standby else state)
            && (pc.SuspendParam? && IsA2dp(session) && Says(kvpairs, "A2dpSuspended", "true") ==>
                  if state == Started then next.CallSuspend? else next.StopParam?)
            && (pc.StopParam? || pc.DisableAfterSuspend? ==> after == Disabled)
            && (pc.CallSuspend? ==> after == if state == Started then Suspending else state)
            && (pc.AwaitSuspended? ==> after == state)
            && (pc.ClosingParam? ==> after == if Says(kvpairs, "closing", "true") then Disabled else state)
            && (pc.ExitingParam? ==> after == if Says(kvpairs, "exiting", "1") then Disabled else state)
            && (pc.SuspendParam? || pc.StopParam? || pc.DisableAfterSuspend? || pc.CallSuspend? || pc.AwaitSuspended?
                || pc.ClosingParam? || pc.ExitingParam?)
  {
    AlwaysServes(cookie, session, frameSize, actions, t);
    AlwaysObeyed(cookie, session, frameSize, actions);
    AlwaysInv(cookie, session, frameSize, actions);
  }

  /** Once the close has gone through, the port is disabled and unregistered, for good. */
  lemma {:induction false} CloseDisables(
      cookie: Cookie, session: Session, frameSize: nat, actions: seq<Action>, t: Thread)
    requires 0 < frameSize && Run(cookie, session, frameSize, actions).Some?
    requires LastCall(actions, t) == Some(Close)
    ensures var s := Run(cookie, session, frameSize, actions).value;
            PcOf(s, t) == Idle ==> s.port == Port(Disabled, None, session) && s.closed
  {
    AlwaysObeyed(cookie, session, frameSize, actions);
    AlwaysInv(cookie, session, frameSize, actions);
    if PcOf(Run(cookie, session, frameSize, actions).value, t) == Idle {
      ClosedIsRecorded(cookie, session, frameSize, actions, t);
    }
  }

  lemma {:induction false} ClosedIsRecorded(
      cookie: Cookie, session: Session, frameSize: nat, actions: seq<Action>, t: Thread)
    requires 0 < frameSize && Run(cookie, session, frameSize, actions).Some?
    requires LastCall(actions, t) == Some(Close)
    ensures var s := Run(cookie, session, frameSize, actions).value;
            s.closed && (PcOf(s, t) == Idle ==> s.port.cookie == None)
  {
    var before, a := actions[..|actions| - 1], actions[|actions| - 1];
    AlwaysObeyed(cookie, session, frameSize, before);
    AlwaysInv(cookie, session, frameSize, before);
    if a != Call(t, Close) { ClosedIsRecorded(cookie, session, frameSize, before, t); }
  }

  /** A Start that finds the port in standby makes it start, and waits if the stack agrees; else it fails untouched. */
  lemma {:induction false} StartRequests(
      cookie: Cookie, session: Session, frameSize: nat, actions: seq<Action>, t: Thread, choice: Choice)
    requires 0 < frameSize && Run(cookie, session, frameSize, actions).Some?
    requires PcOf(Run(cookie, session, frameSize, actions).value, t).CallStart?
    ensures var s := Run(cookie, session, frameSize, actions).value; var s' := Next(s, Go(t, choice), frameSize);
            && s'.port.state == (if s.port.state == Standby then Starting else s.port.state)
            && (PcOf(s', t).AwaitStarted? <==> s.port.state == Standby && choice.accepted)
            && s.port.cookie == Some(cookie) == s'.port.cookie
  {
    AlwaysObeyed(cookie, session, frameSize, actions);
  }

  /** And a Suspend that finds it started makes it suspend. */
  lemma {:induction false} SuspendRequests(
      cookie: Cookie, session: Session, frameSize: nat, actions: seq<Action>, t: Thread, choice: Choice)
    requires 0 < frameSize && Run(cookie, session, frameSize, actions).Some?
    requires PcOf(Run(cookie, session, frameSize, actions).value, t).CallSuspend?
    ensures var s := Run(cookie, session, frameSize, actions).value; var s' := Next(s, Go(t, choice), frameSize);
            && s'.port.state == (if s.port.state == Started then Suspending else s.port.state)
            && (PcOf(s', t).AwaitSuspended? <==> s.port.state == Started && choice.accepted)
            && s.port.cookie == Some(cookie) == s'.port.cookie
  {
    AlwaysObeyed(cookie, session, frameSize, actions);
  }

  // ---------- how a write, a resume and a pause go, and what they return ----------

  /** The callbacks since the request start the port: a success first, and then nothing but failures. */
  predicate Granted(heard: seq<Callback>) {
    Change !in heard && heard != [] && !StartUndone(heard)
  }

  /** A comparison of out_resume finds the port not ready, or not allowed to resume. */
  predicate Refused(step: nat, state: StreamState) {
    (step == 2 && state == Starting) || (step == 3 && state == Suspending) || (step == 4 && state == Disabled)
  }

  /**
   The course of a write. It hands its data to the stack exactly when it finds the
   stream started, when the start it requests is granted, or when it passes the
   comparisons of out_resume; otherwise it gives up. It returns what the stack took; a
   write that gives up returns all its bytes if the port is disabled then, and else none.
   */
  lemma {:induction false} WriteCourse(
      cookie: Cookie, session: Session, frameSize: nat, actions: seq<Action>, t: Thread, choice: Choice, bytes: nat)
    requires 0 < frameSize && Run(cookie, session, frameSize, actions).Some?
    requires LastCall(actions, t) == Some(Write(bytes))
    requires CanGo(Run(cookie, session, frameSize, actions).value, t, choice)
    ensures WriteGoesOn(Run(cookie, session, frameSize, actions).value, t, choice, frameSize, bytes)
  {
    AlwaysServes(cookie, session, frameSize, actions, t);
    AlwaysObeyed(cookie, session, frameSize, actions);
    AlwaysInv(cookie, session, frameSize, actions);
    var s := Run(cookie, session, frameSize, actions).value;
    assert PcSound(PcOf(s, t));
    if PcOf(s, t).AwaitStarted? { StartAnswers(cookie, session, frameSize, actions, t, choice.timedOut); }
    WriteStep(s, t, choice, frameSize, bytes);
  }

  ghost predicate WriteGoesOn(s: State, t: Thread, choice: Choice, frameSize: nat, bytes: nat)
    requires 0 < frameSize
  {
    var pc, state, s' := PcOf(s, t), s.port.state, Next(s, Go(t, choice), frameSize);
    && (PcOf(s', t).CallWriteData? <==>
          || (pc.WriteCheck? && state == Started)
          || (pc.AwaitStarted? && Granted(s.heard))
          || (pc.ResumeCheck? && pc.step == 4 && state != Disabled))
    && (PcOf(s', t).GiveUp? <==>
          || (pc.ResumeCheck? && Refused(pc.step, state))
          || (pc.CallStart? && !(state == Standby && choice.accepted))
          || (pc.AwaitStarted? && !Granted(s.heard)))
    && (pc.CallWriteData? ==> PcOf(s', t) == CountWritten(bytes, choice.written))
    && (PcOf(s', t) == Idle <==> pc.GiveUp? || pc.CountWritten?)
    && (pc.GiveUp? ==> t in s'.answers && s'.answers[t] == if state == Disabled then bytes else 0)
    && (pc.CountWritten? ==> t in s'.answers && s'.answers[t] == pc.written)
  }

  lemma {:induction false} WriteStep(s: State, t: Thread, choice: Choice, frameSize: nat, bytes: nat)
    requires 0 < frameSize && CanGo(s, t, choice) && s.port.cookie.Some?
    requires Serves(PcOf(s, t), Some(Write(bytes))) && (PcOf(s, t).ResumeCheck? ==> 1 <= PcOf(s, t).step <= 4)
    requires PcOf(s, t).AwaitStarted? ==>
               (WaitAnswer(Starting, s.port.state, choice.timedOut) == Some(true) <==> Granted(s.heard))
    ensures WriteGoesOn(s, t, choice, frameSize, bytes)
  {
  }

  /** A resume returns 0 exactly when its start is granted or it passes all comparisons, and an error code by cause. */
  lemma {:induction false} ResumeReturns(
      cookie: Cookie, session: Session, frameSize: nat, actions: seq<Action>, t: Thread, choice: Choice)
    requires 0 < frameSize && Run(cookie, session, frameSize, actions).Some?
    requires LastCall(actions, t) == Some(Resume)
    requires var s := Run(cookie, session, frameSize, actions).value;
             CanGo(s, t, choice) && PcOf(Next(s, Go(t, choice), frameSize), t) == Idle
    ensures var s := Run(cookie, session, frameSize, actions).value;
            var pc, state, answers := PcOf(s, t), s.port.state, Next(s, Go(t, choice), frameSize).answers;
            && t in answers
            && (answers[t] == 0 <==>
                  (pc.AwaitStarted? && Granted(s.heard)) || (pc.ResumeCheck? && pc.step == 4 && state != Disabled))
            && (answers[t] == -EBUSY <==> pc.ResumeCheck? && pc.step < 4)
            && (answers[t] == -EINVAL <==> pc.ResumeCheck? && pc.step == 4 && state == Disabled)
            && (answers[t] == -EIO <==> pc.CallStart? || (pc.AwaitStarted? && !Granted(s.heard)))
            && (pc.ResumeCheck? && pc.step < 4 ==> Refused(pc.step, state))
  {
    AlwaysServes(cookie, session, frameSize, actions, t);
    AlwaysInv(cookie, session, frameSize, actions);
    var s := Run(cookie, session, frameSize, actions).value;
    assert PcSound(PcOf(s, t));
    if PcOf(s, t).AwaitStarted? { StartAnswers(cookie, session, frameSize, actions, t, choice.timedOut); }
  }

  /** Standby and pause suspend a started stream; they return 0 exactly when that is granted or unnecessary. */
  lemma {:induction false} PauseCourse(
      cookie: Cookie, session: Session, frameSize: nat, actions: seq<Action>, t: Thread, choice: Choice)
    requires 0 < frameSize && Run(cookie, session, frameSize, actions).Some?
    requires LastCall(actions, t) == Some(StandbyOrPause)
    requires CanGo(Run(cookie, session, frameSize, actions).value, t, choice)
    ensures var s := Run(cookie, session, frameSize, actions).value;
            var pc, state, s' := PcOf(s, t), s.port.state, Next(s, Go(t, choice), frameSize);
            && (PcOf(s', t).CallSuspend? <==> pc == PauseCheck(1) && state == Started)
            && (PcOf(s', t) == Idle ==>
                  && t in s'.answers
                  && (s'.answers[t] == 0 <==>
                        || (pc.AwaitSuspended? && Change !in s.heard && SuspendGranted(s.heard))
                        || (pc == PauseCheck(3) && state != Suspending))
                  && (s'.answers[t] == -EBUSY <==>
                        (pc == PauseCheck(2) && state == Starting) || (pc == PauseCheck(3) && state == Suspending)))
  {
    AlwaysServes(cookie, session, frameSize, actions, t);
    AlwaysInv(cookie, session, frameSize, actions);
    if PcOf(Run(cookie, session, frameSize, actions).value, t).AwaitSuspended? {
      SuspendAnswers(cookie, session, frameSize, actions, t, choice.timedOut);
    }
  }

  // ---------- what the frame counters count ----------

  /** The whole frames of a write of which the stack took something. */
  function FramesBy(s: State, a: Action, frameSize: nat): nat
    requires 0 < frameSize
  {
    if a.Go? && PcOf(s, a.thread).CountWritten? && 0 < PcOf(s, a.thread).written
    then PcOf(s, a.thread).bytes / frameSize else 0
  }

  /** Both counters go back to zero: a closing or exiting parameter, or the close, on a port in use. */
  predicate ResetsBoth(s: State, a: Action) {
    && a.Go? && s.port.state != Disabled
    && (var pc := PcOf(s, a.thread);
        pc.CloseCheck? || (pc.ClosingParam? && pc.request.closing) || (pc.ExitingParam? && pc.request.exiting))
  }

  /** So do the rendered frames alone: standby or pause of a started stream, or A2dpSuspended on an A2DP port. */
  predicate ResetsRendered(s: State, a: Action) {
    || ResetsBoth(s, a)
    || (a.Go? && PcOf(s, a.thread) == PauseCheck(1) && s.port.state == Started)
    || (a.Go? && PcOf(s, a.thread).SuspendParam? && IsA2dp(s.port.session) &&
        PcOf(s, a.thread).request.a2dpSuspended == Some(true))
  }

  /** The frames of the successful writes counted since the first `from` steps of the run. */
  ghost function FramesSince(cookie: Cookie, session: Session, frameSize: nat, actions: seq<Action>, from: nat): nat
    requires 0 < frameSize && Run(cookie, session, frameSize, actions).Some?
  {
    if |actions| <= from then 0
    else
      var before := actions[..|actions| - 1];
      FramesSince(cookie, session, frameSize, before, from) +
      FramesBy(Run(cookie, session, frameSize, before).value, actions[|actions| - 1], frameSize)
  }

  lemma {:induction false} StepCounts(s: State, a: Action, frameSize: nat)
    requires 0 < frameSize && Enabled(s, a)
    ensures var s', frames := Next(s, a, frameSize), FramesBy(s, a, frameSize);
            && s'.framesRendered == (if ResetsRendered(s, a) then 0 else s.framesRendered + frames)
            && s'.framesPresented == (if ResetsBoth(s, a) then 0 else s.framesPresented + frames)
  {
  }

  /** The step after the first `i` of a run, and the state it finds. */
  ghost predicate ResetsAt(
      cookie: Cookie, session: Session, frameSize: nat, actions: seq<Action>, i: nat, rendered: bool)
    requires 0 < frameSize && i < |actions|
  {
    var r := Run(cookie, session, frameSize, actions[..i]);
    r.Some? && if rendered then ResetsRendered(r.value, actions[i]) else ResetsBoth(r.value, actions[i])
  }

  /** `from` is where the last reset left off. */
  ghost predicate LastReset(
      cookie: Cookie, session: Session, frameSize: nat, actions: seq<Action>, from: nat, rendered: bool)
    requires 0 < frameSize
  {
    && from <= |actions|
    && (0 < from ==> ResetsAt(cookie, session, frameSize, actions, from - 1, rendered))
    && forall i :: from <= i < |actions| ==> !ResetsAt(cookie, session, frameSize, actions, i, rendered)
  }

  /** The rendered frames are those of the successful writes since the last reset of that counter. */
  lemma {:induction false} RenderedCountsWrites(
      cookie: Cookie, session: Session, frameSize: nat, actions: seq<Action>, from: nat)
    requires 0 < frameSize && Run(cookie, session, frameSize, actions).Some?
    requires LastReset(cookie, session, frameSize, actions, from, true)
    ensures Run(cookie, session, frameSize, actions).value.framesRendered ==
            FramesSince(cookie, session, frameSize, actions, from)
  {
    if actions != [] {
      var n := |actions| - 1;
      StepCounts(Run(cookie, session, frameSize, actions[..n]).value, actions[n], frameSize);
      assert ResetsAt(cookie, session, frameSize, actions, n, true) <==> from == |actions|;
      if from < |actions| {
        ShorterRun(cookie, session, frameSize, actions, from, true);
        RenderedCountsWrites(cookie, session, frameSize, actions[..n], from);
      }
    }
  }

  /** And so are the presented frames, which fewer steps reset. */
  lemma {:induction false} PresentedCountsWrites(
      cookie: Cookie, session: Session, frameSize: nat, actions: seq<Action>, from: nat)
    requires 0 < frameSize && Run(cookie, session, frameSize, actions).Some?
    requires LastReset(cookie, session, frameSize, actions, from, false)
    ensures Run(cookie, session, frameSize, actions).value.framesPresented ==
            FramesSince(cookie, session, frameSize, actions, from)
  {
    if actions != [] {
      var n := |actions| - 1;
      StepCounts(Run(cookie, session, frameSize, actions[..n]).value, actions[n], frameSize);
      assert ResetsAt(cookie, session, frameSize, actions, n, false) <==> from == |actions|;
      if from < |actions| {
        ShorterRun(cookie, session, frameSize, actions, from, false);
        PresentedCountsWrites(cookie, session, frameSize, actions[..n], from);
      }
    }
  }

  lemma {:induction false} ShorterRun(
      cookie: Cookie, session: Session, frameSize: nat, actions: seq<Action>, from: nat, rendered: bool)
    requires 0 < frameSize && from < |actions| && LastReset(cookie, session, frameSize, actions, from, rendered)
    ensures LastReset(cookie, session, frameSize, actions[..|actions| - 1], from, rendered)
  {
    var shorter := actions[..|actions| - 1];
    forall i | 0 <= i < |shorter|
      ensures ResetsAt(cookie, session, frameSize, shorter, i, rendered) ==
              ResetsAt(cookie, session, frameSize, actions, i, rendered)
    {
      assert shorter[..i] == actions[..i] && shorter[i] == actions[i];
    }
  }
}
