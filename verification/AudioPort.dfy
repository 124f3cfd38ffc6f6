/** BluetoothAudioPortAidl: the control path of one audio stream. */
module AudioPort {
  import opened Options

  datatype StreamState = Disabled | Standby | Starting | Started | Suspending | Unknown

  /** The session types that devices map to, and the one a port has before SetUp. */
  datatype Session = UnknownSession | A2dpSoftware | HearingAid | LeAudioEncoding | LeAudioDecoding | LeAudioBroadcast

  predicate IsA2dp(session: Session) {
    session == A2dpSoftware
  }

  /** Anything that is neither success nor reconfiguration is a failure. */
  datatype Status = Success | Reconfiguration | Failure

  type Cookie = nat

  datatype Port = Port(state: StreamState, cookie: Option<Cookie>, session: Session)

  /** What a control result does to the state it finds. */
  function AfterControlResult(state: StreamState, status: Status): StreamState {
    match state
    case Started => if status == Reconfiguration || status == Success then Standby else Started
    case Starting => if status == Success then Started else Standby
    case Suspending => if status == Success then Standby else Disabled
    case _ => state
  }

  /** What the stack calls back with: a control result, or the news that the session has changed. */
  datatype Callback = Result(status: Status) | Change

  function AfterCallback(state: StreamState, c: Callback): StreamState {
    match c
    case Result(status) => AfterControlResult(state, status)
    case Change => Disabled
  }

  /** The registered callbacks: a wrong or missing cookie is ignored. */
  function OnCallback(p: Port, cookie: Cookie, c: Callback): Port {
    if p.cookie != Some(cookie) then p else p.(state := AfterCallback(p.state, c))
  }

  function AfterCallbacks(state: StreamState, heard: seq<Callback>): StreamState {
    if heard == [] then state
    else AfterCallback(AfterCallbacks(state, heard[..|heard| - 1]), heard[|heard| - 1])
  }

  const UNUSED := Port(Disabled, None, UnknownSession)

  /** SetUp: `device` is None for an unknown device, `registered` the cookie the session control hands out. */
  function AfterSetUp(p: Port, device: Option<Session>, ready: bool, registered: Option<Cookie>): Port {
    if device.None? then p
    else if !ready then p.(session := device.value)
    else Port(Standby, registered, device.value)
  }

  /** The state a wait hopes for. */
  function Goal(waitingIn: StreamState): Option<StreamState> {
    match waitingIn
    case Starting => Some(Started)
    case Suspending => Some(Standby)
    case _ => None
  }

  /** The answer of a wait that looks at `state`; None while it goes on. */
  function WaitAnswer(waitingIn: StreamState, state: StreamState, timedOut: bool): (done: Option<bool>)
    ensures done == Some(true) <==> Goal(waitingIn) == Some(state)
    ensures done.None? <==> Goal(waitingIn).Some? && state == waitingIn && !timedOut
  {
    if Goal(waitingIn).None? then Some(false)
    else if state == waitingIn then (if timedOut then Some(false) else None)
    else Some(Goal(waitingIn) == Some(state))
  }

  /** The check-then-set at the head of Start and of Suspend. */
  function StartRequested(p: Port): Port {
    if p.cookie.Some? && p.state == Standby then p.(state := Starting) else p
  }

  function SuspendRequested(p: Port): Port {
    if p.cookie.Some? && p.state == Started then p.(state := Suspending) else p
  }

  function StopRequested(p: Port): Port {
    if p.cookie.Some? then p.(state := Disabled) else p
  }

  class BluetoothAudioPort {
    var state: StreamState
    var cookie: Option<Cookie>
    var session: Session

    ghost function Value(): Port
      reads this
    {
      Port(state, cookie, session)
    }

    constructor ()
      ensures Value() == UNUSED
    {
      state, cookie, session := Disabled, None, UnknownSession;
    }

    method SetUp(device: Option<Session>, ready: bool, registered: Option<Cookie>) returns (ok: bool)
      modifies this
      ensures Value() == AfterSetUp(old(Value()), device, ready, registered)
      ensures session == if device.Some? then device.value else old(session)
      ensures state == if device.Some? && ready then Standby else old(state)
      ensures cookie == if device.Some? && ready then registered else old(cookie)
      ensures ok <==> device.Some? && ready && registered.Some?
    {
      if device.None? { return false; }
      session := device.value;
      if !ready { return false; }
      state := Standby;
      cookie := registered;
      return cookie.Some?;
    }

    method TearDown()
      modifies this
      ensures Value() == old(Value()).(cookie := None)
    {
      if cookie.None? { return; }
      cookie := None;
    }

    method ControlResultCallback(from: Cookie, status: Status)
      modifies this
      ensures Value() == OnCallback(old(Value()), from, Result(status))
    {
      if cookie.None? { return; }
      if cookie.value != from { return; }
      match state
      case Started =>
        if status == Reconfiguration || status == Success { state := Standby; }
      case Starting =>
        if status == Success { state := Started; } else { state := Standby; }
      case Suspending =>
        if status == Success { state := Standby; } else { state := Disabled; }
      case _ => return;
    }

    method SessionChangedCallback(from: Cookie)
      modifies this
      ensures Value() == OnCallback(old(Value()), from, Change)
    {
      if cookie.None? { return; }
      if cookie.value != from { return; }
      state := Disabled;
    }

    /** Start up to the point where it waits; `waits` says whether it does. */
    method RequestStart(streamStarts: bool) returns (waits: bool)
      modifies this
      ensures Value() == StartRequested(old(Value()))
      ensures state == if old(cookie).Some? && old(state) == Standby then Starting else old(state)
      ensures waits <==> old(cookie).Some? && old(state) == Standby && streamStarts
    {
      if cookie.None? { return false; }
      if state != Standby { return false; }
      state := Starting;
      return streamStarts;
    }

    method RequestSuspend(streamSuspends: bool) returns (waits: bool)
      modifies this
      ensures Value() == SuspendRequested(old(Value()))
      ensures state == if old(cookie).Some? && old(state) == Started then Suspending else old(state)
      ensures waits <==> old(cookie).Some? && old(state) == Started && streamSuspends
    {
      if cookie.None? { return false; }
      if state != Started { return false; }
      state := Suspending;
      return streamSuspends;
    }

    method Stop()
      modifies this
      ensures Value() == StopRequested(old(Value()))
      ensures state == if old(cookie).Some? then Disabled else old(state)
    {
      if cookie.None? { return; }
      state := Disabled;
    }

    method SetState(newState: StreamState)
      modifies this
      ensures Value() == old(Value()).(state := newState)
    {
      state := newState;
    }

    /**
     One look of CondwaitState at the state. It answers true exactly when the goal is
     reached, and goes on exactly while nothing has moved and time remains.
     */
    method CondwaitState(waitingIn: StreamState, timedOut: bool) returns (done: Option<bool>)
      ensures done == WaitAnswer(waitingIn, state, timedOut)
      ensures done == Some(true) <==> Goal(waitingIn) == Some(state)
      ensures done.None? <==> Goal(waitingIn).Some? && state == waitingIn && !timedOut
    {
      match waitingIn {
        case Starting =>
          if state != Starting { return Some(state == Started); }
        case Suspending =>
          if state != Suspending { return Some(state == Standby); }
        case _ => return Some(false);
      }
      return if timedOut then Some(false) else None;
    }
  }

  // ---------- what a series of callbacks does ----------

  lemma {:induction false} OneMoreCallback(state: StreamState, heard: seq<Callback>, c: Callback)
    ensures AfterCallbacks(state, heard + [c]) == AfterCallback(AfterCallbacks(state, heard), c)
  {
    assert (heard + [c])[..|heard|] == heard;
  }

  lemma {:induction false} CallbacksConcat(state: StreamState, a: seq<Callback>, b: seq<Callback>)
    ensures AfterCallbacks(state, a + b) == AfterCallbacks(AfterCallbacks(state, a), b)
  {
    if b == [] {
      assert a + b == a;
    } else {
      var n := |b| - 1;
      assert (a + b)[..|a + b| - 1] == a + b[..n];
      CallbacksConcat(state, a, b[..n]);
    }
  }

  /** Callbacks leave Standby and Disabled alone, except that a change disables for good. */
  lemma {:induction false} AtRest(state: StreamState, heard: seq<Callback>)
    ensures state == Disabled || Change in heard ==> AfterCallbacks(state, heard) == Disabled
    ensures state == Standby && Change !in heard ==> AfterCallbacks(state, heard) == Standby
    ensures state == Started ==> AfterCallbacks(state, heard) in {Started, Standby, Disabled}
  {
    if heard != [] { AtRest(state, heard[..|heard| - 1]); }
  }

  /** The first result decides a Suspend. */
  predicate SuspendGranted(heard: seq<Callback>) {
    heard != [] && heard[0] == Result(Success)
  }

  /** A Start is refused, or granted and then ended by a further result. */
  predicate StartUndone(heard: seq<Callback>) {
    heard != [] && (heard[0] != Result(Success) || exists i :: 0 < i < |heard| && Ends(heard[i]))
  }

  predicate Ends(c: Callback) {
    c == Result(Success) || c == Result(Reconfiguration)
  }

  lemma {:induction false} SuspendOutcome(heard: seq<Callback>)
    requires Change !in heard
    ensures AfterCallbacks(Suspending, heard) ==
            if heard == [] then Suspending else if SuspendGranted(heard) then Standby else Disabled
  {
    if heard != [] {
      var n := |heard| - 1;
      SuspendOutcome(heard[..n]);
      assert heard[n] in heard && forall c :: c in heard[..n] ==> c in heard;
    }
  }

  lemma {:induction false} StartOutcome(heard: seq<Callback>)
    requires Change !in heard
    ensures AfterCallbacks(Starting, heard) ==
            if heard == [] then Starting else if StartUndone(heard) then Standby else Started
  {
    if heard != [] {
      var n := |heard| - 1;
      StartOutcome(heard[..n]);
      assert heard[n] in heard && forall c :: c in heard[..n] ==> c in heard;
      assert forall i :: 0 <= i < n ==> heard[..n][i] == heard[i];
      if n > 0 && StartUndone(heard[..n]) && heard[0] == Result(Success) {
        var i :| 0 < i < n && Ends(heard[..n][i]);
        assert Ends(heard[i]);
      }
    }
  }

  // ---------- a chain of comparisons, with callbacks in between ----------

  /** The state that makes the k-th comparison of out_resume leave the chain. */
  function LeavesAt(step: nat): StreamState {
    if step == 1 then Standby else if step == 2 then Starting else if step == 3 then Suspending else Disabled
  }

  /** The states that four reads see, when `gaps` are the callbacks between them. */
  ghost predicate ReadsOf(seen: seq<StreamState>, gaps: seq<seq<Callback>>) {
    && |seen| == 4 && |gaps| == 3
    && forall k :: 0 <= k < 3 ==> seen[k + 1] == AfterCallbacks(seen[k], gaps[k])
  }

  /**
   The session does not change, and either a Start that the first comparison finds
   under way is undone before the second, or a Suspend is granted before the third.
   */
  predicate Slips(first: StreamState, gaps: seq<seq<Callback>>)
    requires |gaps| == 3
  {
    && Change !in gaps[0] && Change !in gaps[1] && Change !in gaps[2]
    && (|| (first == Starting && StartUndone(gaps[0]))
        || (first == Suspending && SuspendGranted(gaps[0] + gaps[1])))
  }

  /** All four comparisons fail without any of them having seen Started exactly when the port slips through. */
  lemma {:induction false} FallsThroughIff(seen: seq<StreamState>, gaps: seq<seq<Callback>>)
    requires ReadsOf(seen, gaps) && seen[0] != Unknown
    ensures (forall k :: 0 <= k < 4 ==> seen[k] != LeavesAt(k + 1) && seen[k] != Started) <==> Slips(seen[0], gaps)
    ensures Slips(seen[0], gaps) ==> seen[3] == Standby
  {
    assert seen[1] == AfterCallbacks(seen[0], gaps[0]);
    assert seen[2] == AfterCallbacks(seen[1], gaps[1]);
    assert seen[3] == AfterCallbacks(seen[2], gaps[2]);
    AtRest(seen[0], gaps[0]);
    AtRest(seen[1], gaps[1]);
    AtRest(seen[2], gaps[2]);
    CallbacksConcat(seen[0], gaps[0], gaps[1]);
    if Change !in gaps[0] {
      StartOutcome(gaps[0]);
      SuspendOutcome(gaps[0]);
      if Change !in gaps[1] { SuspendOutcome(gaps[0] + gaps[1]); }
    }
    assert LeavesAt(1) == Standby && LeavesAt(2) == Starting && LeavesAt(3) == Suspending && LeavesAt(4) == Disabled;
    FourReads(seen);
  }

  lemma FourReads(seen: seq<StreamState>)
    requires |seen| == 4
    ensures (forall k :: 0 <= k < 4 ==> seen[k] != LeavesAt(k + 1) && seen[k] != Started) <==>
              && seen[0] != Standby && seen[1] != Starting && seen[2] != Suspending && seen[3] != Disabled
              && seen[0] != Started && seen[1] != Started && seen[2] != Started && seen[3] != Started
  {
  }
}
