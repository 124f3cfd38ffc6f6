/**
 The start-request handshake of the LE Audio host transport. The sink and the
 source side run the same code on their own state; this is either of them.
 */
module LeAudioHost {
  import opened Options

  datatype RequestState = Idle | PendingBeforeResume | PendingAfterResume | Confirmed | Canceled
  datatype StreamStatus = NotStarted | StreamStarted | StreamCanceled

  datatype Host = Host(
    present: bool,              // the transport instance exists
    request: RequestState,
    remoteDelayMs: nat,
    totalBytes: nat,
    streamStarted: StreamStatus,
    dataPathOpens: nat)         // how often the data path has been opened

  /** What the Bluetooth side may do at any time, also from inside the resume callback. */
  datatype Event = Confirm | Cancel | StopSession | SetRemoteDelay(ms: nat)

  function OnEvent(h: Host, e: Event): Host {
    match e
    case Confirm =>
      if !h.present then h
      else if h.request == PendingBeforeResume then h.(request := Confirmed, dataPathOpens := h.dataPathOpens + 1)
      else if h.request == PendingAfterResume then
        h.(request := Idle, remoteDelayMs := 0, dataPathOpens := h.dataPathOpens + 1, streamStarted := StreamStarted)
      else h
    case Cancel =>
      if !h.present then h
      else if h.request == PendingBeforeResume then h.(request := Canceled)
      else if h.request == PendingAfterResume then
        h.(request := Idle, remoteDelayMs := 0, streamStarted := StreamCanceled)
      else h
    case StopSession =>
      (if h.present then h.(request := Idle, remoteDelayMs := 0) else h).(streamStarted := NotStarted)
    case SetRemoteDelay(ms) => if h.present then h.(remoteDelayMs := ms) else h
  }

  function OnEvents(h: Host, events: seq<Event>): Host
    decreases |events|
  {
    if events == [] then h else OnEvents(OnEvent(h, events[0]), events[1..])
  }

  /**
   One start request. `during` happens inside the resume callback, `between` after
   the state has been compared with CONFIRMED, and `late` after it has been compared
   with CANCELED but before it is set to pending.
   */
  datatype Request = Request(during: seq<Event>, resumed: bool, between: seq<Event>, late: seq<Event>)

  /** A request begins: the stream status and the positions are reset. */
  function Requested(h: Host): Host {
    h.(streamStarted := NotStarted, remoteDelayMs := 0, totalBytes := 0, request := PendingBeforeResume)
  }

  function AfterStart(h: Host, r: Request): (Host, bool) {
    if !h.present then (h, false)
    else
      var h1 := OnEvents(Requested(h), r.during);
      if !r.resumed then (h1.(request := Idle), false)
      else if h1.request == Confirmed then (h1.(request := Idle), true)
      else
        var h2 := OnEvents(h1, r.between);
        if h2.request == Canceled then (h2.(request := Idle), false)
        else (OnEvents(h2, r.late).(request := PendingAfterResume), true)
  }

  class LeAudioTransport {
    var present: bool
    var request: RequestState
    var remoteDelayMs: nat
    var totalBytes: nat
    var streamStarted: StreamStatus
    var dataPathOpens: nat

    ghost function Value(): Host
      reads this
    {
      Host(present, request, remoteDelayMs, totalBytes, streamStarted, dataPathOpens)
    }

    constructor ()
      ensures Value() == Host(true, Idle, 0, 0, NotStarted, 0)
    {
      present, request, remoteDelayMs, totalBytes, streamStarted, dataPathOpens := true, Idle, 0, 0, NotStarted, 0;
    }

    method ClearStartRequestState()
      modifies this
      ensures Value() == old(Value()).(request := Idle, remoteDelayMs := 0)
    {
      request := Idle;
      remoteDelayMs := 0;
    }

    method ConfirmStreamingRequest()
      modifies this
      ensures Value() == OnEvent(old(Value()), Confirm)
    {
      if !present { return; }
      match request {
        case Idle => return;
        case PendingBeforeResume =>
          request := Confirmed;
          dataPathOpens := dataPathOpens + 1;
        case PendingAfterResume =>
          ClearStartRequestState();
          dataPathOpens := dataPathOpens + 1;
          streamStarted := StreamStarted;
        case Confirmed => return;
        case Canceled => return;
      }
    }

    method CancelStreamingRequest()
      modifies this
      ensures Value() == OnEvent(old(Value()), Cancel)
    {
      if !present { return; }
      match request {
        case Idle => return;
        case PendingBeforeResume => request := Canceled;
        case PendingAfterResume =>
          ClearStartRequestState();
          streamStarted := StreamCanceled;
        case Confirmed => return;
        case Canceled => return;
      }
    }

    method Stop()
      modifies this
      ensures Value() == OnEvent(old(Value()), StopSession)
    {
      if present { ClearStartRequestState(); }
      streamStarted := NotStarted;
    }

    method Deliver(events: seq<Event>)
      modifies this
      ensures Value() == OnEvents(old(Value()), events)
    {
      for i := 0 to |events|
        invariant OnEvents(Value(), events[i..]) == OnEvents(old(Value()), events)
      {
        assert events[i..][1..] == events[i + 1..];
        match events[i] {
          case Confirm => ConfirmStreamingRequest();
          case Cancel => CancelStreamingRequest();
          case StopSession => Stop();
          case SetRemoteDelay(ms) => if present { remoteDelayMs := ms; }
        }
      }
    }

    /** HostStartRequest and the StartRequest it calls. */
    method StartRequest(r: Request) returns (ok: bool)
      modifies this
      ensures (Value(), ok) == AfterStart(old(Value()), r)
    {
      if !present { return false; }
      streamStarted := NotStarted;
      remoteDelayMs, totalBytes := 0, 0;
      request := PendingBeforeResume;
      Deliver(r.during);
      if r.resumed {
        if request == Confirmed {
          request := Idle;
          return true;
        }
        Deliver(r.between);
        if request == Canceled {
          request := Idle;
          return false;
        }
        Deliver(r.late);
        request := PendingAfterResume;
        return true;
      }
      request := Idle;
      return false;
    }
  }

  // ---------- the first decision ----------

  /** The first confirmation or cancellation among the events. */
  function FirstDecision(events: seq<Event>): (first: Option<Event>)
    ensures first.Some? ==> first.value == Confirm || first.value == Cancel
    ensures first.None? <==> Confirm !in events && Cancel !in events
    decreases |events|
  {
    if events == [] then None
    else if events[0] == Confirm || events[0] == Cancel then Some(events[0])
    else FirstDecision(events[1..])
  }

  lemma {:induction false} PresenceStays(h: Host, events: seq<Event>)
    ensures OnEvents(h, events).present == h.present
    decreases |events|
  {
    if events != [] { PresenceStays(OnEvent(h, events[0]), events[1..]); }
  }

  /** Inside the callback the first decision fixes the request, or a stop clears it; the stream does not move. */
  lemma {:induction false} DuringResume(h: Host, events: seq<Event>)
    requires h.present && h.request == PendingBeforeResume && h.streamStarted == NotStarted
    ensures var h' := OnEvents(h, events);
            && h'.streamStarted == NotStarted
            && (StopSession in events ==> h'.request == Idle)
            && (StopSession !in events ==>
                  h'.request == if FirstDecision(events) == Some(Confirm) then Confirmed
                                else if FirstDecision(events) == Some(Cancel) then Canceled
                                else PendingBeforeResume)
    decreases |events|
  {
    if events != [] {
      var h1 := OnEvent(h, events[0]);
      if events[0].SetRemoteDelay? { DuringResume(h1, events[1..]); } else { Settled(h1, events[1..]); }
    }
  }

  /** A request that is idle, confirmed or canceled is not moved by decisions, only cleared by a stop. */
  lemma {:induction false} Settled(h: Host, events: seq<Event>)
    requires h.present && h.request != PendingBeforeResume && h.request != PendingAfterResume
    ensures var h' := OnEvents(h, events);
            && h'.request == (if StopSession in events then Idle else h.request)
            && h'.streamStarted == (if StopSession in events then NotStarted else h.streamStarted)
            && h'.dataPathOpens == h.dataPathOpens
    decreases |events|
  {
    if events != [] { Settled(OnEvent(h, events[0]), events[1..]); }
  }

  /**
   The outcome of a request whose resume succeeds and during which the session is
   not stopped: the first decision made inside the callback counts and the rest
   have no effect; without one the request stays pending.
   */
  lemma {:induction false} FirstDecisionCounts(h: Host, during: seq<Event>)
    requires h.present && StopSession !in during
    ensures var (h', ok) := AfterStart(h, Request(during, true, [], []));
            && h'.streamStarted == NotStarted
            && h'.request == (if FirstDecision(during).Some? then Idle else PendingAfterResume)
            && (ok <==> FirstDecision(during) != Some(Cancel))
  {
    DuringResume(Requested(h), during);
  }

  /**
   In general a request comes back pending exactly when its resume succeeds and it
   is not settled in time: a stop inside the callback wipes any decision made there, a
   stop after the first comparison wipes a cancellation, and a confirmation after the
   first comparison or anything after the second is lost.
   */
  lemma {:induction false} PendingExactly(h: Host, r: Request)
    requires h.present
    ensures var (h', ok) := AfterStart(h, r);
            h'.request == PendingAfterResume <==>
              && r.resumed
              && (|| StopSession in r.during
                  || (StopSession in r.between && FirstDecision(r.during) != Some(Confirm))
                  || (FirstDecision(r.during).None? && FirstDecision(r.between) != Some(Cancel)))
  {
    var h0 := Requested(h);
    DuringResume(h0, r.during);
    PresenceStays(h0, r.during);
    var h1 := OnEvents(h0, r.during);
    if r.resumed && h1.request == PendingBeforeResume { DuringResume(h1, r.between); }
    else if r.resumed && h1.request != Confirmed { Settled(h1, r.between); }
  }

  /**
   The second comparison finds the request canceled: the first decision, inside the
   callback or failing that before the comparison, was a cancellation, and no stop wiped it.
   */
  ghost predicate FoundCanceled(r: Request) {
    && StopSession !in r.during && StopSession !in r.between
    && (if FirstDecision(r.during).Some? then FirstDecision(r.during) == Some(Cancel)
        else FirstDecision(r.between) == Some(Cancel))
  }

  /**
   A request succeeds exactly when there is a transport, its resume succeeds and it is
   not found canceled; without a transport nothing happens at all.
   */
  lemma {:induction false} StartAnswersIff(h: Host, r: Request)
    ensures var (h', ok) := AfterStart(h, r);
            && (ok <==> h.present && r.resumed && !FoundCanceled(r))
            && (!ok && h.present ==> h'.request == Idle)
            && (!h.present ==> h' == h)
  {
    if h.present {
      var h0 := Requested(h);
      DuringResume(h0, r.during);
      PresenceStays(h0, r.during);
      var h1 := OnEvents(h0, r.during);
      if r.resumed && h1.request == PendingBeforeResume { DuringResume(h1, r.between); }
      else if r.resumed && h1.request != Confirmed { Settled(h1, r.between); }
    }
  }

  /** A confirmation that arrives just before the request is marked pending opens the data path and is then lost. */
  lemma {:induction false} ConfirmationLost(h: Host)
    requires h.present
    ensures var (h', ok) := AfterStart(h, Request([], true, [], [Confirm]));
            ok && h'.request == PendingAfterResume && h'.streamStarted == NotStarted &&
            h'.dataPathOpens == h.dataPathOpens + 1
  {
    assert [Confirm][1..] == [];
  }

  /** A pending request is decided by the first decision that follows. */
  lemma {:induction false} PendingIsDecidedOnce(h: Host, events: seq<Event>)
    requires h.present && h.request == PendingAfterResume && StopSession !in events
    ensures var h', first := OnEvents(h, events), FirstDecision(events);
            && h'.request == (if first.Some? then Idle else PendingAfterResume)
            && h'.streamStarted == (if first == Some(Confirm) then StreamStarted
                                    else if first == Some(Cancel) then StreamCanceled else h.streamStarted)
            && h'.dataPathOpens == h.dataPathOpens + (if first == Some(Confirm) then 1 else 0)
    decreases |events|
  {
    if events != [] {
      var h1 := OnEvent(h, events[0]);
      if events[0].SetRemoteDelay? { PendingIsDecidedOnce(h1, events[1..]); } else { Settled(h1, events[1..]); }
    }
  }

  // ---------- the reported delay ----------

  /** The delay reported last, or zero if the session was stopped since; `before` if neither happened. */
  function LastDelay(events: seq<Event>, before: nat): nat {
    if events == [] then before
    else
      var e := events[|events| - 1];
      if e.SetRemoteDelay? then e.ms else if e == StopSession then 0 else LastDelay(events[..|events| - 1], before)
  }

  lemma {:induction false} OneMoreEvent(h: Host, events: seq<Event>, e: Event)
    ensures OnEvents(h, events + [e]) == OnEvent(OnEvents(h, events), e)
    decreases |events|
  {
    if events == [] {
      assert [e][1..] == [] && events + [e] == [e];
    } else {
      assert (events + [e])[1..] == events[1..] + [e];
      OneMoreEvent(OnEvent(h, events[0]), events[1..], e);
    }
  }

  /** While a request is not pending after its resume, the transport keeps the delay reported last, and its counter. */
  lemma {:induction false} KeepsLastDelay(h: Host, events: seq<Event>)
    requires h.present && h.request != PendingAfterResume
    ensures var h' := OnEvents(h, events);
            && h'.present && h'.request != PendingAfterResume
            && h'.remoteDelayMs == LastDelay(events, h.remoteDelayMs) && h'.totalBytes == h.totalBytes
  {
    if events != [] {
      var n := |events| - 1;
      KeepsLastDelay(h, events[..n]);
      OneMoreEvent(h, events[..n], events[n]);
      assert events[..n] + [events[n]] == events;
    }
  }

  /** The decision on a pending request, or a stop, forgets the delay; what is reported later counts again. */
  lemma {:induction false} SettlingForgetsDelay(h: Host, before: seq<Event>, e: Event, after: seq<Event>)
    requires h.present && h.request == PendingAfterResume && FirstSettling(before).None? && !e.SetRemoteDelay?
    ensures OnEvents(h, before).remoteDelayMs == LastDelay(before, h.remoteDelayMs)
    ensures OnEvents(OnEvents(h, before + [e]), after).remoteDelayMs == LastDelay(after, 0)
  {
    StaysPending(h, before);
    OneMoreEvent(h, before, e);
    KeepsLastDelay(OnEvents(h, before + [e]), after);
  }

  lemma {:induction false} StaysPending(h: Host, events: seq<Event>)
    requires h.present && h.request == PendingAfterResume && FirstSettling(events).None?
    ensures var h' := OnEvents(h, events);
            && h'.present && h'.request == PendingAfterResume && h'.remoteDelayMs == LastDelay(events, h.remoteDelayMs)
  {
    if events != [] {
      var n := |events| - 1;
      assert forall e :: e in events[..n] ==> e in events;
      assert events[n] in events;
      StaysPending(h, events[..n]);
      OneMoreEvent(h, events[..n], events[n]);
      assert events[..n] + [events[n]] == events;
    }
  }

  /** The events a request has met when it comes back. */
  ghost function Met(r: Request): seq<Event> {
    if !r.resumed || (StopSession !in r.during && FirstDecision(r.during) == Some(Confirm)) then r.during
    else if FoundCanceled(r) then r.during + r.between
    else r.during + r.between + r.late
  }

  /** A request starts from no delay and no bytes, and comes back with the delay reported last. */
  lemma {:induction false} StartResetsPosition(h: Host, r: Request)
    requires h.present
    ensures var h' := AfterStart(h, r).0; h'.remoteDelayMs == LastDelay(Met(r), 0) && h'.totalBytes == 0
  {
    var h0 := Requested(h);
    var h1 := OnEvents(h0, r.during);
    var h2 := OnEvents(h1, r.between);
    StartAnswersIff(h, r);
    DuringResume(h0, r.during);
    KeepsLastDelay(h0, r.during);
    KeepsLastDelay(h1, r.between);
    KeepsLastDelay(h2, r.late);
    LastDelayConcat(r.during, r.between, 0);
    LastDelayConcat(r.during + r.between, r.late, 0);
  }

  lemma {:induction false} LastDelayConcat(a: seq<Event>, b: seq<Event>, before: nat)
    ensures LastDelay(a + b, before) == LastDelay(b, LastDelay(a, before))
  {
    if b == [] {
      assert a + b == a;
    } else {
      assert (a + b)[..|a + b| - 1] == a + b[..|b| - 1];
      LastDelayConcat(a, b[..|b| - 1], before);
    }
  }

  // ---------- how often a request opens the data path ----------

  /** The first event that settles a request: a decision or a stop. */
  function FirstSettling(events: seq<Event>): (first: Option<Event>)
    ensures first.None? <==> StopSession !in events && Confirm !in events && Cancel !in events
    decreases |events|
  {
    if events == [] then None
    else if events[0].SetRemoteDelay? then FirstSettling(events[1..])
    else Some(events[0])
  }

  /** Before the request is pending, it opens the data path exactly when a confirmation comes first. */
  lemma {:induction false} OpensBeforePending(h: Host, events: seq<Event>)
    requires h.present && h.request == PendingBeforeResume
    ensures var h' := OnEvents(h, events);
            && h'.dataPathOpens == h.dataPathOpens + (if FirstSettling(events) == Some(Confirm) then 1 else 0)
            && (FirstSettling(events).None? <==> h'.request == PendingBeforeResume)
            && h'.request != PendingAfterResume && h'.present
    decreases |events|
  {
    PresenceStays(h, events);
    if events != [] {
      var h1 := OnEvent(h, events[0]);
      if events[0].SetRemoteDelay? { OpensBeforePending(h1, events[1..]); } else { Settled(h1, events[1..]); }
    }
  }

  /** A confirmation comes first after the first comparison. */
  ghost predicate ConfirmedLate(r: Request) {
    || FirstSettling(r.between) == Some(Confirm)
    || (FirstSettling(r.between).None? && FirstSettling(r.late) == Some(Confirm))
  }

  /** The confirmation of the request opened the data path, and then the request forgot it. */
  ghost predicate Forgets(r: Request) {
    && r.resumed
    && (|| (FirstSettling(r.during) == Some(Confirm) && StopSession in r.during)
        || (FirstSettling(r.during).None? && ConfirmedLate(r)))
  }

  lemma {:induction false} ForgetsExactly(h: Host, r: Request)
    requires h.present
    ensures var h' := AfterStart(h, r).0;
            && h'.present && h.dataPathOpens <= h'.dataPathOpens <= h.dataPathOpens + 1
            && (Forgets(r) <==> h'.request == PendingAfterResume && h'.dataPathOpens == h.dataPathOpens + 1)
  {
    var h0 := Requested(h);
    OpensBeforePending(h0, r.during);
    DuringResume(h0, r.during);
    DecisionBeforeStop(r.during);
    var h1 := OnEvents(h0, r.during);
    if r.resumed && h1.request != Confirmed { OpensBetween(h1, r); }
  }

  lemma {:induction false} DecisionBeforeStop(events: seq<Event>)
    ensures FirstSettling(events) == Some(Confirm) ==> FirstDecision(events) == Some(Confirm)
    ensures FirstSettling(events) == Some(Cancel) ==> FirstDecision(events) == Some(Cancel)
    ensures StopSession !in events ==> FirstSettling(events) == FirstDecision(events)
    decreases |events|
  {
    if events != [] { DecisionBeforeStop(events[1..]); }
  }

  /** What happens after the first comparison. */
  lemma {:induction false} OpensBetween(h: Host, r: Request)
    requires h.present && h.request != PendingAfterResume && h.request != Confirmed
    ensures var h2 := OnEvents(h, r.between); var h3 := OnEvents(h2, r.late);
            && h2.present && h3.present && (h.request == Idle ==> h2.request == Idle)
            && h.dataPathOpens <= h2.dataPathOpens <= h3.dataPathOpens <= h.dataPathOpens + 1
            && (h3.dataPathOpens == h.dataPathOpens + 1 <==> h.request == PendingBeforeResume && ConfirmedLate(r))
            && (h2.request == Canceled ==> h2.dataPathOpens == h.dataPathOpens)
            && (h.request == PendingBeforeResume ==>
                  && (FirstSettling(r.between).None? ==> h2.request == PendingBeforeResume)
                  && (FirstSettling(r.between) == Some(Confirm) ==> h2.request != Canceled))
  {
    var h2 := OnEvents(h, r.between);
    PresenceStays(h, r.between);
    PresenceStays(h2, r.late);
    if h.request == PendingBeforeResume {
      OpensBeforePending(h, r.between);
      ConfirmedStays(h, r.between);
    } else {
      Settled(h, r.between);
    }
    if h2.request == PendingBeforeResume { OpensBeforePending(h2, r.late); } else { Settled(h2, r.late); }
  }

  lemma {:induction false} ConfirmedStays(h: Host, events: seq<Event>)
    requires h.present && h.request == PendingBeforeResume
    ensures FirstSettling(events) == Some(Confirm) ==> OnEvents(h, events).request != Canceled
    decreases |events|
  {
    if events != [] {
      var h1 := OnEvent(h, events[0]);
      if events[0].SetRemoteDelay? { ConfirmedStays(h1, events[1..]); } else { Settled(h1, events[1..]); }
    }
  }

  /**
   A request opens the data path at most once, whatever follows it, exactly when it
   does not forget a confirmation; one that does can be confirmed, and opened, again.
   */
  lemma {:induction false} OpensOnceIff(h: Host, r: Request)
    requires h.present
    ensures (forall later :: OnEvents(AfterStart(h, r).0, later).dataPathOpens <= h.dataPathOpens + 1) <==> !Forgets(r)
  {
    var h' := AfterStart(h, r).0;
    ForgetsExactly(h, r);
    if Forgets(r) {
      assert [Confirm][1..] == [];
      assert OnEvents(h', [Confirm]).dataPathOpens == h.dataPathOpens + 2;
    } else {
      RestsAfterStart(h, r);
      forall later ensures OnEvents(h', later).dataPathOpens <= h.dataPathOpens + 1 { OpensLater(h', later); }
    }
  }

  lemma {:induction false} RestsAfterStart(h: Host, r: Request)
    requires h.present
    ensures AfterStart(h, r).0.request == Idle || AfterStart(h, r).0.request == PendingAfterResume
  {
  }

  lemma {:induction false} OpensLater(h: Host, events: seq<Event>)
    requires h.request == Idle || h.request == PendingAfterResume
    ensures OnEvents(h, events).dataPathOpens <= h.dataPathOpens + (if h.request == PendingAfterResume then 1 else 0)
    decreases |events|
  {
    if events != [] { OpensLater(OnEvent(h, events[0]), events[1..]); }
  }

  // ---------- every run ----------

  datatype Op = Start(r: Request) | Happens(e: Event)

  function AfterOp(h: Host, op: Op): Host {
    match op
    case Start(r) => AfterStart(h, r).0
    case Happens(e) => OnEvent(h, e)
  }

  function Run(h: Host, ops: seq<Op>): Host
    decreases |ops|
  {
    if ops == [] then h else Run(AfterOp(h, ops[0]), ops[1..])
  }

  ghost predicate AtRest(h: Host) {
    h.request == Idle || h.request == PendingAfterResume
  }

  /** Between operations a request is either absent or pending after its resume. */
  lemma {:induction false} AlwaysAtRest(h: Host, ops: seq<Op>)
    requires AtRest(h)
    ensures AtRest(Run(h, ops))
    decreases |ops|
  {
    if ops != [] { AlwaysAtRest(AfterOp(h, ops[0]), ops[1..]); }
  }

  /** How often the stream status leaves its resting value while these events happen. */
  function Departures(h: Host, events: seq<Event>): nat
    decreases |events|
  {
    if events == [] then 0
    else
      var h' := OnEvent(h, events[0]);
      (if h.streamStarted == NotStarted && h'.streamStarted != NotStarted then 1 else 0) + Departures(h', events[1..])
  }

  /** After a request the stream status leaves its resting value at most once, and only if it came back pending. */
  lemma {:induction false} LeavesAtMostOnce(h: Host, events: seq<Event>)
    requires AtRest(h)
    ensures Departures(h, events) <= if h.present && h.request == PendingAfterResume then 1 else 0
    decreases |events|
  {
    if events != [] { LeavesAtMostOnce(OnEvent(h, events[0]), events[1..]); }
  }

  /** And while the request itself runs it does not leave it at all. */
  lemma {:induction false} RequestLeavesStreamAlone(h: Host, r: Request)
    requires h.present
    ensures AfterStart(h, r).0.streamStarted == NotStarted
  {
    var h0 := Requested(h);
    QuietStream(h0, r.during);
    QuietStream(OnEvents(h0, r.during), r.between);
    QuietStream(OnEvents(OnEvents(h0, r.during), r.between), r.late);
  }

  lemma {:induction false} QuietStream(h: Host, events: seq<Event>)
    requires h.request != PendingAfterResume && h.streamStarted == NotStarted
    ensures OnEvents(h, events).request != PendingAfterResume && OnEvents(h, events).streamStarted == NotStarted
    decreases |events|
  {
    if events != [] { QuietStream(OnEvent(h, events[0]), events[1..]); }
  }
}
