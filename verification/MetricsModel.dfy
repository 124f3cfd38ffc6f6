/** The value-level model of BluetoothMetricsLogger: bounded event queues, one open session, dumps. */
module MetricsModel {
  import opened Options
  import opened LeakyBondedQueue
  import opened A2dpMetrics

  datatype PairEvent = PairEvent(disconnectReason: nat, timestampMs: nat, deviceClass: nat, deviceType: nat)
  datatype WakeEvent = WakeEvent(kind: nat, requestor: string, name: string, timestampMs: nat)
  datatype ScanEvent = ScanEvent(start: bool, initiator: string, kind: nat, results: nat, timestampMs: nat)

  datatype ConnectionTech = TechUnknown | TechLe | TechBredr
  datatype DisconnectReason = ReasonUnknown | MetricsDump | NextStartWithoutEndPrevious

  /** The device type is always recorded as BR/EDR, so only the class is kept. */
  datatype Session = Session(
    tech: ConnectionTech,
    deviceClass: Option<nat>,
    a2dp: Option<Metrics>,
    ended: Option<(DisconnectReason, int)>)  // reason and duration in seconds

  const MAX_SESSIONS: nat := 50
  const MAX_PAIR_EVENTS: nat := 50
  const MAX_WAKE_EVENTS: nat := 1000
  const MAX_SCAN_EVENTS: nat := 50
  const AUDIO_CLASS: nat := 0x04  // BTM_COD_MAJOR_AUDIO

  /** A queue with the counter of everything ever put into it since the log was cleared. */
  datatype Counted<T> = Counted(queue: seq<T>, count: nat)

  datatype Logger = Logger(
    sessions: Counted<Session>,
    pairs: Counted<PairEvent>,
    wakes: Counted<WakeEvent>,
    scans: Counted<ScanEvent>,
    current: Option<Session>,
    startMs: int,
    metrics: Metrics,
    headset: Connections)

  const EMPTY :=
    Logger(Counted([], 0), Counted([], 0), Counted([], 0), Counted([], 0), None, 0, DEFAULT, NO_CONNECTIONS)

  /** Connection counts by headset profile: unknown, HSP, HFP. */
  type Connections = c: seq<nat> | |c| == 3 witness [0, 0, 0]

  const NO_CONNECTIONS: Connections := [0, 0, 0]

  datatype Service = OtherService | HspService | HfpService

  function ProfileOf(service: Service): (profile: nat)
    ensures profile < 3
  {
    match service case OtherService => 0 case HspService => 1 case HfpService => 2
  }

  function Connected(c: Connections, service: Service): Connections {
    c[ProfileOf(service) := c[ProfileOf(service)] + 1]
  }

  /** The pairs of profile and count that a dump emits: those with a positive count, in order. */
  function Emitted(counts: seq<nat>): seq<(nat, nat)> {
    if counts == [] then []
    else
      var n := |counts| - 1;
      Emitted(counts[..n]) + if counts[n] > 0 then [(n, counts[n])] else []
  }

  /** The two clock readings an operation makes at most. */
  datatype Clock = Clock(now: nat, next: nat)

  function Added<T>(c: Counted<T>, x: T, capacity: nat): Counted<T> {
    Counted(LastN(c.queue + [x], capacity), c.count + 1)
  }

  /** uint64_t subtraction, then a division by 1000. */
  function DurationSec(endMs: int, startMs: int): int {
    ((endMs - startMs) % 0x1_0000_0000_0000_0000) / 1000
  }

  /** A timestamp of zero stands for the current time. */
  function At(timestampMs: nat, now: nat): nat {
    if timestampMs == 0 then now else timestampMs
  }

  /** The session that ending the current one puts into the queue. */
  function Closing(l: Logger, reason: DisconnectReason, timestampMs: nat, now: nat): Option<Session> {
    match l.current
    case None => None
    case Some(s) => Some(s.(ended := Some((reason, DurationSec(At(timestampMs, now), l.startMs)))))
  }

  function SessionEnded(l: Logger, reason: DisconnectReason, timestampMs: nat, now: nat): Logger {
    match Closing(l, reason, timestampMs, now)
    case None => l
    case Some(s) => l.(sessions := Added(l.sessions, s, MAX_SESSIONS), current := None, metrics := DEFAULT)
  }

  /** Ending an open session takes the first reading of the clock. */
  function SessionStarted(l: Logger, tech: ConnectionTech, timestampMs: nat, clock: Clock): Logger {
    SessionEnded(l, NextStartWithoutEndPrevious, 0, clock.now).(
      current := Some(Session(tech, None, None, None)),
      startMs := At(timestampMs, if l.current.Some? then clock.next else clock.now))
  }

  function DeviceInfoLogged(l: Logger, deviceClass: nat, clock: Clock): Logger {
    var l' := if l.current.None? then SessionStarted(l, TechUnknown, 0, clock) else l;
    l'.(current := Some(l'.current.value.(deviceClass := Some(deviceClass))))
  }

  function A2dpLogged(l: Logger, m: Metrics, clock: Clock): Logger {
    var l' :=
      if l.current.None? then DeviceInfoLogged(SessionStarted(l, TechBredr, 0, clock), AUDIO_CLASS, clock) else l;
    var metrics := Update(l'.metrics, m);
    l'.(metrics := metrics, current := Some(l'.current.value.(a2dp := Some(metrics))))
  }

  /** CutoffSession: the current session is closed and goes on as a new one without its A2DP part. */
  function CutOff(l: Logger, clock: Clock): Logger {
    match l.current
    case None => l
    case Some(s) =>
      SessionEnded(l, MetricsDump, 0, clock.now).(current := Some(s.(a2dp := None)), startMs := clock.next)
  }

  /** What a dump emits. */
  datatype Dump = Dump(
    sessions: seq<Session>, numSessions: nat,
    pairs: seq<PairEvent>, numPairs: nat,
    wakes: seq<WakeEvent>, numWakes: nat,
    scans: seq<ScanEvent>, numScans: nat,
    headsets: seq<(nat, nat)>)

  function DumpOf(l: Logger, clock: Clock): Dump {
    var c := CutOff(l, clock);
    Dump(c.sessions.queue, c.sessions.count, c.pairs.queue, c.pairs.count,
         c.wakes.queue, c.wakes.count, c.scans.queue, c.scans.count, Emitted(c.headset))
  }

  function Dumped(l: Logger, clock: Clock): Logger {
    var c := CutOff(l, clock);
    EMPTY.(current := c.current, startMs := c.startMs, metrics := c.metrics)
  }

  datatype Op =
    | LogPair(pair: PairEvent)
    | LogWake(wake: WakeEvent)
    | LogScan(scan: ScanEvent)
    | SessionStart(tech: ConnectionTech, timestampMs: nat)
    | SessionEnd(reason: DisconnectReason, timestampMs: nat)
    | DeviceInfo(deviceClass: nat)
    | LogA2dp(metrics: Metrics)
    | LogHeadset(service: Service)
    | WriteDump
    | Reset

  /** A reset keeps the headset connection counts. */
  function Step(l: Logger, op: Op, clock: Clock): Logger {
    match op
    case LogPair(e) => l.(pairs := Added(l.pairs, e, MAX_PAIR_EVENTS))
    case LogWake(e) => l.(wakes := Added(l.wakes, e, MAX_WAKE_EVENTS))
    case LogScan(e) => l.(scans := Added(l.scans, e, MAX_SCAN_EVENTS))
    case SessionStart(tech, t) => SessionStarted(l, tech, t, clock)
    case SessionEnd(reason, t) => SessionEnded(l, reason, t, clock.now)
    case DeviceInfo(deviceClass) => DeviceInfoLogged(l, deviceClass, clock)
    case LogA2dp(m) => A2dpLogged(l, m, clock)
    case LogHeadset(service) => l.(headset := Connected(l.headset, service))
    case WriteDump => Dumped(l, clock)
    case Reset => EMPTY.(headset := l.headset)
  }

  // ---------- histories ----------

  /** The session an operation closes, if it closes one. */
  function Closed(l: Logger, op: Op, clock: Clock): Option<Session> {
    match op
    case SessionStart(_, _) => Closing(l, NextStartWithoutEndPrevious, 0, clock.now)
    case SessionEnd(reason, t) => Closing(l, reason, t, clock.now)
    case WriteDump => Closing(l, MetricsDump, 0, clock.now)
    case _ => None
  }

  /** The A2DP calls of one session segment; the session is None when a reset threw it away. */
  datatype Segment = Segment(calls: seq<Metrics>, session: Option<Session>)

  /** A logger with the record of what was logged since the last dump or reset, and of all A2DP calls. */
  datatype History = History(
    log: Logger,
    sessions: seq<Session>,
    pairs: seq<PairEvent>,
    wakes: seq<WakeEvent>,
    scans: seq<ScanEvent>,
    headsets: seq<nat>,         // profiles connected since the last dump
    open: seq<Metrics>,         // A2DP calls of the current session
    segments: seq<Segment>,
    calls: seq<Metrics>)        // every A2DP call

  const BLANK := History(EMPTY, [], [], [], [], [], [], [], [])

  function Recorded(h: History, op: Op, clock: Clock): History {
    var closed := Closed(h.log, op, clock);
    var log := Step(h.log, op, clock);
    if op.WriteDump? then
      h.(log := log, sessions := [], pairs := [], wakes := [], scans := [], headsets := [], open := [],
         segments := h.segments + if closed.Some? then [Segment(h.open, closed)] else [])
    else if op.Reset? then
      h.(log := log, sessions := [], pairs := [], wakes := [], scans := [], open := [],
         segments := h.segments + if h.log.current.Some? then [Segment(h.open, None)] else [])
    else
      History(
        log,
        h.sessions + (if closed.Some? then [closed.value] else []),
        h.pairs + (if op.LogPair? then [op.pair] else []),
        h.wakes + (if op.LogWake? then [op.wake] else []),
        h.scans + (if op.LogScan? then [op.scan] else []),
        h.headsets + (if op.LogHeadset? then [ProfileOf(op.service)] else []),
        if op.LogA2dp? then h.open + [op.metrics] else if closed.Some? then [] else h.open,
        h.segments + (if closed.Some? then [Segment(h.open, closed)] else []),
        h.calls + (if op.LogA2dp? then [op.metrics] else []))
  }

  /** Operations with the clock each of them reads. */
  function Run(ops: seq<(Op, Clock)>): History {
    if ops == [] then BLANK
    else Recorded(Run(ops[..|ops| - 1]), ops[|ops| - 1].0, ops[|ops| - 1].1)
  }

  ghost predicate HeadsetsCounted(h: History) {
    forall i :: 0 <= i < 3 ==> h.log.headset[i] == multiset(h.headsets)[i]
  }

  /** A queue holds the last events and its counter counts them all. */
  ghost predicate Keeps<T>(c: Counted<T>, logged: seq<T>, capacity: nat) {
    c.queue == LastN(logged, capacity) && c.count == |logged|
  }

  ghost predicate QueuesKeep(h: History) {
    && Keeps(h.log.sessions, h.sessions, MAX_SESSIONS)
    && Keeps(h.log.pairs, h.pairs, MAX_PAIR_EVENTS)
    && Keeps(h.log.wakes, h.wakes, MAX_WAKE_EVENTS)
    && Keeps(h.log.scans, h.scans, MAX_SCAN_EVENTS)
  }

  /** What a session says about its A2DP calls. */
  function Summary(calls: seq<Metrics>): Option<Metrics> {
    if calls == [] then None else Some(Aggregate(calls))
  }

  function AllCalls(segments: seq<Segment>): seq<Metrics> {
    if segments == [] then [] else AllCalls(segments[..|segments| - 1]) + segments[|segments| - 1].calls
  }

  ghost predicate SessionsSummarise(h: History) {
    && LogSummarises(h.log, h.open)
    && forall i :: 0 <= i < |h.segments| ==> Summarises(h.segments[i])
  }

  predicate Summarises(g: Segment) {
    g.session.Some? ==> g.session.value.a2dp == Summary(g.calls) && g.session.value.ended.Some?
  }

  ghost predicate CallsAddUp(h: History) {
    AllCalls(h.segments) + h.open == h.calls
  }

  lemma {:induction false} KeepsAdded<T>(c: Counted<T>, logged: seq<T>, x: T, capacity: nat)
    requires Keeps(c, logged, capacity) && 0 < capacity
    ensures Keeps(Added(c, x, capacity), logged + [x], capacity)
  {
    LastNAppend(logged, x, capacity);
  }

  lemma {:induction false} StepKeepsQueues(h: History, op: Op, clock: Clock)
    requires QueuesKeep(h)
    ensures QueuesKeep(Recorded(h, op, clock))
  {
    var closed, h' := Closed(h.log, op, clock), Recorded(h, op, clock);
    if op.LogPair? { KeepsAdded(h.log.pairs, h.pairs, op.pair, MAX_PAIR_EVENTS); }
    if op.LogWake? { KeepsAdded(h.log.wakes, h.wakes, op.wake, MAX_WAKE_EVENTS); }
    if op.LogScan? { KeepsAdded(h.log.scans, h.scans, op.scan, MAX_SCAN_EVENTS); }
    if closed.Some? { KeepsAdded(h.log.sessions, h.sessions, closed.value, MAX_SESSIONS); }
    assert h.pairs + [] == h.pairs && h.wakes + [] == h.wakes;
    assert h.scans + [] == h.scans && h.sessions + [] == h.sessions;
  }

  lemma {:induction false} StepKeepsHeadsets(h: History, op: Op, clock: Clock)
    requires HeadsetsCounted(h)
    ensures HeadsetsCounted(Recorded(h, op, clock))
  {
    if op.LogHeadset? {
      var p := ProfileOf(op.service);
      assert multiset(h.headsets + [p]) == multiset(h.headsets) + multiset{p};
    } else {
      assert h.headsets + [] == h.headsets;
    }
  }

  /** The emitted pairs are exactly the profiles with a positive count. */
  lemma {:induction false} EmittedExactly(counts: seq<nat>, i: nat, n: nat)
    ensures (i, n) in Emitted(counts) <==> i < |counts| && n == counts[i] && 0 < n
  {
    if counts != [] { EmittedExactly(counts[..|counts| - 1], i, n); }
  }

  /** They come in increasing order. */
  lemma {:induction false} EmittedInOrder(counts: seq<nat>, j: nat, k: nat)
    requires j < k < |Emitted(counts)|
    ensures Emitted(counts)[j].0 < Emitted(counts)[k].0
  {
    var n := |counts| - 1;
    var front := Emitted(counts[..n]);
    if k < |front| {
      EmittedInOrder(counts[..n], j, k);
    } else {
      EmittedExactly(counts[..n], front[j].0, front[j].1);
      assert front[j] in front;
    }
  }

  lemma {:induction false} OneMoreSegment(segments: seq<Segment>, g: Segment)
    ensures AllCalls(segments + [g]) == AllCalls(segments) + g.calls
  {
    assert (segments + [g])[..|segments|] == segments;
  }

  lemma {:induction false} StepKeepsSessions(h: History, op: Op, clock: Clock)
    requires SessionsSummarise(h)
    ensures SessionsSummarise(Recorded(h, op, clock))
  {
    OpenSummarises(h, op, clock);
    NewSegments(h, op, clock);
  }

  /** The segment an operation ends, if it ends one. */
  function Ended(h: History, op: Op, clock: Clock): seq<Segment> {
    if Closed(h.log, op, clock).Some? then [Segment(h.open, Closed(h.log, op, clock))]
    else if op.Reset? && h.log.current.Some? then [Segment(h.open, None)]
    else []
  }

  lemma {:induction false} NewSegments(h: History, op: Op, clock: Clock)
    requires SessionsSummarise(h)
    ensures Recorded(h, op, clock).segments == h.segments + Ended(h, op, clock)
    ensures forall i :: 0 <= i < |Ended(h, op, clock)| ==> Summarises(Ended(h, op, clock)[i])
  {
  }

  /** The accumulated metrics and the open session summarise these reports. */
  ghost predicate LogSummarises(l: Logger, reports: seq<Metrics>) {
    && l.metrics == Aggregate(reports)
    && (l.current.None? ==> reports == [])
    && (l.current.Some? ==> l.current.value.a2dp == Summary(reports) && l.current.value.ended.None?)
  }

  /** The reports of the open session after an operation. */
  function NextReports(l: Logger, reports: seq<Metrics>, op: Op, clock: Clock): seq<Metrics> {
    if op.LogA2dp? then reports + [op.metrics]
    else if op.WriteDump? || op.Reset? || Closed(l, op, clock).Some? then []
    else reports
  }

  lemma {:induction false} StepSummarises(l: Logger, reports: seq<Metrics>, op: Op, clock: Clock)
    requires LogSummarises(l, reports)
    ensures LogSummarises(Step(l, op, clock), NextReports(l, reports, op, clock))
  {
    if op.LogA2dp? { OneMoreReport(reports, op.metrics); }
  }

  lemma {:induction false} OpenSummarises(h: History, op: Op, clock: Clock)
    requires LogSummarises(h.log, h.open)
    ensures LogSummarises(Recorded(h, op, clock).log, Recorded(h, op, clock).open)
  {
    StepSummarises(h.log, h.open, op, clock);
    NextOpen(h, op, clock);
  }

  lemma {:induction false} NextOpen(h: History, op: Op, clock: Clock)
    ensures var h' := Recorded(h, op, clock);
            h'.log == Step(h.log, op, clock) && h'.open == NextReports(h.log, h.open, op, clock)
  {
  }

  lemma {:induction false} OneMoreReport(calls: seq<Metrics>, m: Metrics)
    ensures Aggregate(calls + [m]) == Update(Aggregate(calls), m)
  {
    assert (calls + [m])[..|calls|] == calls;
  }

  lemma {:induction false} StepKeepsCalls(h: History, op: Op, clock: Clock)
    requires CallsAddUp(h) && (h.log.current.None? ==> h.open == [])
    ensures CallsAddUp(Recorded(h, op, clock))
  {
    var ended := Ended(h, op, clock);
    OpenAndCalls(h, op, clock);
    if ended != [] {
      OneMoreSegment(h.segments, ended[0]);
      assert h.segments + ended == h.segments + [ended[0]];
    } else {
      assert h.segments + ended == h.segments;
    }
    if op.LogA2dp? {
      assert AllCalls(h.segments) + (h.open + [op.metrics]) == AllCalls(h.segments) + h.open + [op.metrics];
    }
  }

  lemma {:induction false} OpenAndCalls(h: History, op: Op, clock: Clock)
    requires h.log.current.None? ==> h.open == []
    ensures var h' := Recorded(h, op, clock); var ended := Ended(h, op, clock);
            && (op.LogA2dp? ==> h'.calls == h.calls + [op.metrics] && h'.open == h.open + [op.metrics] && ended == [])
            && (!op.LogA2dp? ==> h'.calls == h.calls && h'.open == if ended == [] then h.open else [])
            && |ended| <= 1 && (ended != [] ==> ended[0].calls == h.open)
            && h'.segments == h.segments + ended
  {
  }

  lemma {:induction false} AlwaysKept(ops: seq<(Op, Clock)>)
    ensures QueuesKeep(Run(ops)) && SessionsSummarise(Run(ops)) && CallsAddUp(Run(ops)) && HeadsetsCounted(Run(ops))
  {
    if ops != [] {
      var before, op := ops[..|ops| - 1], ops[|ops| - 1];
      AlwaysKept(before);
      StepKeepsQueues(Run(before), op.0, op.1);
      StepKeepsSessions(Run(before), op.0, op.1);
      StepKeepsCalls(Run(before), op.0, op.1);
      StepKeepsHeadsets(Run(before), op.0, op.1);
    }
  }

  /**
   After any sequence of operations, a dump emits for every kind exactly the last
   events logged since the previous dump or reset, in order, with the number of
   all of them; the session it cuts off is the last one of its kind. Nothing stays
   queued, and an open session goes on without its A2DP part.
   */
  lemma {:induction false} DumpIsTheTail(ops: seq<(Op, Clock)>, clock: Clock)
    ensures var h := Run(ops); var d := DumpOf(h.log, clock);
            var closed := Closing(h.log, MetricsDump, 0, clock.now);
            var sessions := h.sessions + if closed.Some? then [closed.value] else [];
            && d.sessions == LastN(sessions, MAX_SESSIONS) && d.numSessions == |sessions|
            && d.pairs == LastN(h.pairs, MAX_PAIR_EVENTS) && d.numPairs == |h.pairs|
            && d.wakes == LastN(h.wakes, MAX_WAKE_EVENTS) && d.numWakes == |h.wakes|
            && d.scans == LastN(h.scans, MAX_SCAN_EVENTS) && d.numScans == |h.scans|
    ensures var h := Run(ops); var after := Dumped(h.log, clock);
            && after.sessions == Counted([], 0) && after.pairs == Counted([], 0)
            && after.wakes == Counted([], 0) && after.scans == Counted([], 0)
            && (after.current.Some? <==> h.log.current.Some?)
            && (after.current.Some? ==>
                  && after.current.value == h.log.current.value.(a2dp := None)
                  && after.startMs == clock.next && after.metrics == DEFAULT)
  {
    AlwaysKept(ops);
    var h := Run(ops);
    var closed := Closing(h.log, MetricsDump, 0, clock.now);
    if closed.Some? {
      KeepsAdded(h.log.sessions, h.sessions, closed.value, MAX_SESSIONS);
    } else {
      assert h.sessions + [] == h.sessions;
    }
  }

  /**
   And for the headset profiles exactly those connected since the previous dump,
   each with the number of its connections, in order; a reset in between does not matter.
   */
  lemma {:induction false} DumpCountsHeadsets(ops: seq<(Op, Clock)>, clock: Clock, profile: nat, n: nat)
    ensures var h := Run(ops); var d := DumpOf(h.log, clock);
            (profile, n) in d.headsets <==> profile < 3 && n == multiset(h.headsets)[profile] && 0 < n
    ensures var headsets := DumpOf(Run(ops).log, clock).headsets;
            forall j, k :: 0 <= j < k < |headsets| ==> headsets[j].0 < headsets[k].0
    ensures Dumped(Run(ops).log, clock).headset == NO_CONNECTIONS
  {
    AlwaysKept(ops);
    var counts := Run(ops).log.headset;
    EmittedExactly(counts, profile, n);
    forall j, k | 0 <= j < k < |Emitted(counts)| ensures Emitted(counts)[j].0 < Emitted(counts)[k].0 {
      EmittedInOrder(counts, j, k);
    }
  }

  /**
   Every A2DP report is counted in exactly one segment: the segments and the open
   session, in order, hold all calls; each closed session carries the aggregate of
   its own calls; and without an open session nothing is accumulated.
   */
  lemma {:induction false} EveryCallInOneSegment(ops: seq<(Op, Clock)>, i: nat)
    ensures var h := Run(ops);
            && AllCalls(h.segments) + h.open == h.calls
            && (h.log.current.None? ==> h.open == [] && h.log.metrics == DEFAULT)
            && (h.log.current.Some? ==> h.log.current.value.a2dp == Summary(h.open))
            && (i < |h.segments| && h.segments[i].session.Some? ==>
                  h.segments[i].session.value.a2dp == Summary(h.segments[i].calls))
  {
    AlwaysKept(ops);
  }

  /** The sessions waiting for the next dump are those of the latest segments, in order. */
  ghost predicate LatestSegments(sessions: seq<Session>, segments: seq<Segment>) {
    && |sessions| <= |segments|
    && forall i :: 0 <= i < |sessions| ==> segments[|segments| - |sessions| + i].session == Some(sessions[i])
  }

  lemma {:induction false} ClosedSessionsAreSegments(ops: seq<(Op, Clock)>)
    ensures LatestSegments(Run(ops).sessions, Run(ops).segments)
  {
    if ops != [] {
      ClosedSessionsAreSegments(ops[..|ops| - 1]);
      StepKeepsLatest(Run(ops[..|ops| - 1]), ops[|ops| - 1].0, ops[|ops| - 1].1);
    }
  }

  lemma {:induction false} StepKeepsLatest(h: History, op: Op, clock: Clock)
    requires LatestSegments(h.sessions, h.segments)
    ensures LatestSegments(Recorded(h, op, clock).sessions, Recorded(h, op, clock).segments)
  {
    var closed := Closed(h.log, op, clock);
    if closed.Some? {
      AddedLatest(h.sessions, h.segments, closed.value, h.open);
    } else {
      assert h.sessions + [] == h.sessions && h.segments + [] == h.segments;
    }
  }

  lemma {:induction false} AddedLatest(sessions: seq<Session>, segments: seq<Segment>, s: Session, calls: seq<Metrics>)
    requires LatestSegments(sessions, segments)
    ensures LatestSegments(sessions + [s], segments + [Segment(calls, Some(s))])
  {
  }
}
