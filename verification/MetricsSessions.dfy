/**
 The sessions of a dump, told by the log of operations alone: which operation opened
 and which closed each of them, and what that makes its reason, duration, technology,
 device class and A2DP summary.
 */
module MetricsSessions {
  import opened Options
  import opened LeakyBondedQueue
  import opened A2dpMetrics
  import opened MetricsModel

  type Log = seq<(Op, Clock)>

  // ---------- what the log says ----------

  /** The operation that opened the session now open; a dump opens the rest of a session it cuts off. */
  function Opener(log: Log): (k: Option<nat>)
    ensures k.Some? ==> k.value < |log|
  {
    if log == [] then None
    else
      var before, n := Opener(log[..|log| - 1]), |log| - 1;
      match log[n].0
      case SessionStart(_, _) => Some(n)
      case SessionEnd(_, _) => None
      case Reset => None
      case WriteDump => if before.Some? then Some(n) else None
      case DeviceInfo(_) => if before.Some? then before else Some(n)
      case LogA2dp(_) => if before.Some? then before else Some(n)
      case _ => before
  }

  /** When the session that operation `k` opened began: at the timestamp given, or by the clock of that operation. */
  function OpenedAt(log: Log, k: nat): nat
    requires k < |log|
  {
    var (op, clock) := log[k];
    if op.SessionStart? && op.timestampMs != 0 then op.timestampMs
    else if op.WriteDump? || Opener(log[..k]).Some? then clock.next
    else clock.now
  }

  /** Its technology: as the start said, unknown or BR/EDR when it was opened on demand, or as before the dump. */
  function TechOf(log: Log, k: nat): ConnectionTech
    requires k < |log|
    decreases k
  {
    match log[k].0
    case SessionStart(tech, _) => tech
    case LogA2dp(_) => TechBredr
    case WriteDump => if Opener(log[..k]).Some? then TechOf(log, Opener(log[..k]).value) else TechUnknown
    case _ => TechUnknown
  }

  /** The device class logged last since operation `k`; a session that goes on after a dump keeps its class. */
  function ClassSince(log: Log, k: nat): Option<nat>
    requires k < |log|
    decreases |log|
  {
    var n := |log| - 1;
    match log[n].0
    case DeviceInfo(deviceClass) => Some(deviceClass)
    case _ =>
      if k < n then ClassSince(log[..n], k)
      else if log[k].0.LogA2dp? then Some(AUDIO_CLASS)
      else if log[k].0.WriteDump? && Opener(log[..k]).Some? then ClassSince(log[..k], Opener(log[..k]).value)
      else None
  }

  /** The A2DP reports since operation `k`. */
  function ReportsSince(log: Log, k: nat): seq<Metrics> {
    if |log| <= k then []
    else
      var n := |log| - 1;
      ReportsSince(log[..n], k) + if log[n].0.LogA2dp? then [log[n].0.metrics] else []
  }

  /** The operation closes the session that is open before it. */
  predicate Closes(log: Log, i: nat)
    requires i < |log|
  {
    Opener(log[..i]).Some? && (log[i].0.SessionStart? || log[i].0.SessionEnd? || log[i].0.WriteDump?)
  }

  function ReasonOf(op: Op): DisconnectReason {
    if op.SessionEnd? then op.reason else if op.SessionStart? then NextStartWithoutEndPrevious else MetricsDump
  }

  /** When an operation closes a session: at the timestamp given to SessionEnd, or by the clock. */
  function ClosedAt(op: Op, clock: Clock): nat {
    if op.SessionEnd? && op.timestampMs != 0 then op.timestampMs else clock.now
  }

  const TWO_TO_THE_64 := 0x1_0000_0000_0000_0000

  /** The duration in whole seconds; the subtraction wraps when the session ends before it begins. */
  ghost predicate Lasts(seconds: int, from: nat, to: nat) {
    && (from <= to < from + TWO_TO_THE_64 ==> seconds * 1000 <= to - from < seconds * 1000 + 1000)
    && (to < from <= to + TWO_TO_THE_64 ==> seconds * 1000 <= to - from + TWO_TO_THE_64 < seconds * 1000 + 1000)
  }

  /** What the log says about the session that operation `i` closed. */
  ghost predicate Tells(s: Session, log: Log, i: nat)
    requires i < |log| && Closes(log, i)
  {
    var before, k := log[..i], Opener(log[..i]).value;
    && s.ended.Some? && s.ended.value.0 == ReasonOf(log[i].0)
    && Lasts(s.ended.value.1, OpenedAt(before, k), ClosedAt(log[i].0, log[i].1))
    && s.tech == TechOf(before, k)
    && s.deviceClass == ClassSince(before, k)
    && s.a2dp == Summary(ReportsSince(before, k))
  }

  /** The operations that closed a session since the last dump or reset, in order. */
  function Closers(log: Log): (r: seq<nat>)
    ensures forall j :: 0 <= j < |r| ==> r[j] < |log| && Closes(log, r[j])
  {
    if log == [] then []
    else
      var n := |log| - 1;
      var before := Closers(log[..n]);
      assert forall i :: 0 <= i < n ==> log[..n][..i] == log[..i];
      if log[n].0.WriteDump? || log[n].0.Reset? then []
      else before + if Closes(log, n) then [n] else []
  }

  // ---------- a log that goes on ----------

  lemma {:induction false} TechStays(log: Log, k: nat, n: nat)
    requires k < n <= |log|
    ensures TechOf(log[..n], k) == TechOf(log, k)
    decreases k
  {
    assert log[..n][..k] == log[..k];
    if log[k].0.WriteDump? && Opener(log[..k]).Some? { TechStays(log, Opener(log[..k]).value, n); }
  }

  lemma {:induction false} OpenedAtStays(log: Log, k: nat, n: nat)
    requires k < n <= |log|
    ensures OpenedAt(log[..n], k) == OpenedAt(log, k)
  {
    assert log[..n][..k] == log[..k];
  }

  lemma {:induction false} TellsStays(s: Session, log: Log, i: nat, n: nat)
    requires i < n <= |log| && Closes(log[..n], i)
    ensures Closes(log, i) && (Tells(s, log[..n], i) <==> Tells(s, log, i))
  {
    assert log[..n][..i] == log[..i];
  }

  // ---------- the open session ----------

  /** What the logger holds about the open session is what the log says. */
  ghost predicate OpenAsLogged(l: Logger, log: Log) {
    && (l.current.Some? <==> Opener(log).Some?)
    && (l.current.Some? ==>
          var k := Opener(log).value;
          && l.startMs == OpenedAt(log, k)
          && l.current.value.tech == TechOf(log, k)
          && l.current.value.deviceClass == ClassSince(log, k))
  }

  lemma {:induction false} StepKeepsOpen(l: Logger, log: Log)
    requires log != [] && OpenAsLogged(l, log[..|log| - 1])
    ensures OpenAsLogged(Step(l, log[|log| - 1].0, log[|log| - 1].1), log)
  {
    var n := |log| - 1;
    var before := Opener(log[..n]);
    if before.Some? {
      TechStays(log, before.value, n);
      OpenedAtStays(log, before.value, n);
    }
  }

  lemma {:induction false} LogSteps(log: Log)
    requires log != []
    ensures var n := |log| - 1; Run(log).log == Step(Run(log[..n]).log, log[n].0, log[n].1)
  {
  }

  lemma {:induction false} AlwaysOpenAsLogged(log: Log)
    ensures OpenAsLogged(Run(log).log, log)
  {
    if log != [] {
      AlwaysOpenAsLogged(log[..|log| - 1]);
      StepKeepsOpen(Run(log[..|log| - 1]).log, log);
      LogSteps(log);
    }
  }

  /** The reports of the open session are those since it was opened. */
  lemma {:induction false} OpenReports(log: Log)
    ensures Opener(log).Some? ==> Run(log).open == ReportsSince(log, Opener(log).value)
    ensures Opener(log).None? ==> Run(log).open == []
  {
    if log != [] {
      var n := |log| - 1;
      OpenReports(log[..n]);
      AlwaysOpenAsLogged(log[..n]);
      NextReports(Run(log[..n]), log, n);
    }
  }

  lemma {:induction false} NextReports(h: History, log: Log, n: nat)
    requires n == |log| - 1 && OpenAsLogged(h.log, log[..n])
    requires h.open == if Opener(log[..n]).Some? then ReportsSince(log[..n], Opener(log[..n]).value) else []
    ensures Recorded(h, log[n].0, log[n].1).open ==
            if Opener(log).Some? then ReportsSince(log, Opener(log).value) else []
  {
    NoneBefore(log, n);
    ClosedIff(h.log, log, n);
    NextOpen(h, log[n].0, log[n].1);
  }

  lemma {:induction false} ClosedIff(l: Logger, log: Log, n: nat)
    requires n == |log| - 1 && (l.current.Some? <==> Opener(log[..n]).Some?)
    ensures Closed(l, log[n].0, log[n].1).Some? <==> Closes(log, n)
  {
  }

  lemma {:induction false} NoneBefore(log: Log, n: nat)
    requires n == |log| - 1
    ensures ReportsSince(log, n) == if log[n].0.LogA2dp? then [log[n].0.metrics] else []
  {
    assert ReportsSince(log[..n], n) == [];
  }

  // ---------- the closed sessions ----------

  lemma {:induction false} ClosingTells(log: Log, n: nat)
    requires n == |log| - 1
    ensures Closed(Run(log[..n]).log, log[n].0, log[n].1).Some? <==> Closes(log, n)
    ensures Closes(log, n) ==> Tells(Closed(Run(log[..n]).log, log[n].0, log[n].1).value, log, n)
  {
    var h := Run(log[..n]);
    AlwaysOpenAsLogged(log[..n]);
    AlwaysKept(log[..n]);
    OpenReports(log[..n]);
    ClosedAsLogged(h.log, log, n, h.open);
  }

  lemma {:induction false} ClosedAsLogged(l: Logger, log: Log, n: nat, reports: seq<Metrics>)
    requires n == |log| - 1 && OpenAsLogged(l, log[..n])
    requires l.current.Some? ==> l.current.value.a2dp == Summary(reports)
    requires Opener(log[..n]).Some? ==> reports == ReportsSince(log[..n], Opener(log[..n]).value)
    ensures Closed(l, log[n].0, log[n].1).Some? <==> Closes(log, n)
    ensures Closes(log, n) ==> Tells(Closed(l, log[n].0, log[n].1).value, log, n)
  {
    if Closes(log, n) { DurationLasts(ClosedAt(log[n].0, log[n].1), l.startMs); }
  }

  lemma {:induction false} DurationLasts(to: nat, from: nat)
    ensures Lasts(DurationSec(to, from), from, to)
  {
  }

  ghost predicate SessionsAsLogged(sessions: seq<Session>, log: Log) {
    && |sessions| == |Closers(log)|
    && forall j :: 0 <= j < |sessions| ==> Tells(sessions[j], log, Closers(log)[j])
  }

  lemma {:induction false} AlwaysAsLogged(log: Log)
    ensures SessionsAsLogged(Run(log).sessions, log)
  {
    if log != [] {
      var n := |log| - 1;
      AlwaysAsLogged(log[..n]);
      ClosingTells(log, n);
      var closers := Closers(log[..n]);
      forall j | 0 <= j < |closers|
        ensures Closes(log, closers[j]) && Tells(Run(log[..n]).sessions[j], log, closers[j])
      {
        TellsStays(Run(log[..n]).sessions[j], log, closers[j], n);
      }
    }
  }

  /** The operations that close a session, up to and including the dump that ends the log. */
  function ClosersOfDump(log: Log, clock: Clock): (r: seq<nat>)
    ensures forall j :: 0 <= j < |r| ==> r[j] <= |log| && Closes(log + [(WriteDump, clock)], r[j])
  {
    var full := log + [(WriteDump, clock)];
    assert full[..|log|] == log;
    assert forall i :: 0 <= i < |log| ==> full[..i] == log[..i] && full[i] == log[i];
    Closers(log) + if Opener(log).Some? then [|log|] else []
  }

  /**
   After any sequence of operations a dump tells, for the last 50 sessions closed since
   the previous dump or reset, in order, what the log says about each: why and when it
   was closed, since when it was open, its technology, its device class and its reports;
   and it tells how many there were.
   */
  lemma {:induction false} DumpTellsTheLog(log: Log, clock: Clock, j: nat)
    ensures var d, closers := DumpOf(Run(log).log, clock), ClosersOfDump(log, clock);
            && d.numSessions == |closers|
            && |d.sessions| == (if |closers| < MAX_SESSIONS then |closers| else MAX_SESSIONS)
            && (j < |d.sessions| ==>
                  Tells(d.sessions[j], log + [(WriteDump, clock)], closers[|closers| - |d.sessions| + j]))
  {
    AllTold(log, clock);
    TailIsDumped(log, clock, j);
  }

  lemma {:induction false} TailIsDumped(log: Log, clock: Clock, j: nat)
    ensures var d, sessions := DumpOf(Run(log).log, clock), SessionsOfDump(log, clock);
            && d.numSessions == |sessions|
            && |d.sessions| == (if |sessions| < MAX_SESSIONS then |sessions| else MAX_SESSIONS)
            && (j < |d.sessions| ==> d.sessions[j] == sessions[|sessions| - |d.sessions| + j])
  {
    DumpIsTheTail(log, clock);
  }

  /** The sessions closed since the previous dump or reset, with the one that a dump cuts off. */
  function SessionsOfDump(log: Log, clock: Clock): seq<Session> {
    var closed := Closing(Run(log).log, MetricsDump, 0, clock.now);
    Run(log).sessions + if closed.Some? then [closed.value] else []
  }

  lemma {:induction false} AllTold(log: Log, clock: Clock)
    ensures var sessions, closers := SessionsOfDump(log, clock), ClosersOfDump(log, clock);
            && |sessions| == |closers|
            && forall i :: 0 <= i < |closers| ==> Tells(sessions[i], log + [(WriteDump, clock)], closers[i])
  {
    var full, closers := log + [(WriteDump, clock)], Closers(log);
    assert full[..|log|] == log;
    AlwaysAsLogged(log);
    ClosingTells(full, |log|);
    forall i | 0 <= i < |closers|
      ensures Closes(full, closers[i]) && Tells(Run(log).sessions[i], full, closers[i])
    {
      TellsStays(Run(log).sessions[i], full, closers[i], |log|);
    }
  }

  /** The duration is the time elapsed exactly when the session does not end before it began. */
  lemma {:induction false} DurationIsElapsedIff(from: nat, to: nat)
    requires from < TWO_TO_THE_64 && to < TWO_TO_THE_64
    ensures var seconds := DurationSec(to, from);
            (seconds * 1000 <= to - from < seconds * 1000 + 1000) <==> from <= to
  {
  }

  // ---------- the headset connections ----------

  /** How often a service connected since the last dump. */
  function ConnectedSince(log: Log, service: Service): nat {
    if log == [] then 0
    else
      var n := |log| - 1;
      if log[n].0.WriteDump? then 0
      else ConnectedSince(log[..n], service) + if log[n].0 == LogHeadset(service) then 1 else 0
  }

  function Place(service: Service): (i: nat)
    ensures i < 3
  {
    if service == HspService then 1 else if service == HfpService then 2 else 0
  }

  lemma {:induction false} StepCounts(l: Logger, op: Op, clock: Clock, service: Service)
    ensures Step(l, op, clock).headset[Place(service)] ==
            if op.WriteDump? then 0 else l.headset[Place(service)] + if op == LogHeadset(service) then 1 else 0
  {
  }

  lemma {:induction false} CountsServices(log: Log, service: Service)
    ensures Run(log).log.headset[Place(service)] == ConnectedSince(log, service)
  {
    if log != [] {
      var n := |log| - 1;
      CountsServices(log[..n], service);
      StepCounts(Run(log[..n]).log, log[n].0, log[n].1, service);
      LogSteps(log);
    }
  }

  /** A dump emits 1 for HSP, 2 for HFP and 0 for any other service, each with its connections since the last dump. */
  lemma {:induction false} DumpCountsServices(log: Log, clock: Clock, n: nat)
    ensures var headsets := DumpOf(Run(log).log, clock).headsets;
            && ((0, n) in headsets <==> n == ConnectedSince(log, OtherService) && 0 < n)
            && ((1, n) in headsets <==> n == ConnectedSince(log, HspService) && 0 < n)
            && ((2, n) in headsets <==> n == ConnectedSince(log, HfpService) && 0 < n)
  {
    CountsServices(log, OtherService);
    CountsServices(log, HspService);
    CountsServices(log, HfpService);
    var counts := Run(log).log.headset;
    EmittedExactly(counts, 0, n);
    EmittedExactly(counts, 1, n);
    EmittedExactly(counts, 2, n);
  }
}
