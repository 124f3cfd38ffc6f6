/** BluetoothMetricsLogger: the fields and methods of the source, proved against the value-level model. */
module MetricsLogger {
  import opened Options
  import opened LeakyBondedQueue
  import opened A2dpMetrics
  import opened MetricsModel

  /** A loop of Build: moves a queue into the log, in order. */
  method Drain<T>(queue: LeakyBondedQueue<T>, log: seq<T>) returns (filled: seq<T>)
    requires queue.Valid() && |log| + |queue.queue| <= queue.capacity
    modifies queue
    ensures queue.Valid() && queue.queue == [] && filled == log + old(queue.queue)
  {
    filled := log;
    while |queue.queue| != 0 && |filled| <= queue.capacity
      invariant queue.Valid() && |filled| + |queue.queue| <= queue.capacity
      invariant filled + queue.queue == log + old(queue.queue)
      decreases |queue.queue|
    {
      var item := queue.Dequeue();
      filled := filled + [item];
    }
  }

  /** The loop of Build over the headset profiles. */
  method EmitHeadsets(counts: seq<nat>) returns (stats: seq<(nat, nat)>)
    ensures stats == Emitted(counts)
  {
    stats := [];
    for i := 0 to |counts|
      invariant stats == Emitted(counts[..i])
    {
      assert counts[..i + 1][..i] == counts[..i];
      if counts[i] > 0 {
        stats := stats + [(i, counts[i])];
      }
    }
    assert counts[..|counts|] == counts;
  }

  class BluetoothMetricsLogger {
    const btSessionQueue: LeakyBondedQueue<Session>
    const pairEventQueue: LeakyBondedQueue<PairEvent>
    const wakeEventQueue: LeakyBondedQueue<WakeEvent>
    const scanEventQueue: LeakyBondedQueue<ScanEvent>
    const a2dpSessionMetrics: A2dpSessionMetrics
    var numBluetoothSession: nat
    var numPairEvent: nat
    var numWakeEvent: nat
    var numScanEvent: nat
    var bluetoothSession: Option<Session>
    var bluetoothSessionStartTimeMs: int
    var headsetProfileConnectionCounts: Connections

    ghost function Parts(): set<object>
      reads this
    {
      {this, btSessionQueue, pairEventQueue, wakeEventQueue, scanEventQueue, a2dpSessionMetrics}
    }

    ghost predicate Valid()
      reads Parts()
    {
      && |Parts()| == 6
      && btSessionQueue.Valid() && btSessionQueue.capacity == MAX_SESSIONS
      && pairEventQueue.Valid() && pairEventQueue.capacity == MAX_PAIR_EVENTS
      && wakeEventQueue.Valid() && wakeEventQueue.capacity == MAX_WAKE_EVENTS
      && scanEventQueue.Valid() && scanEventQueue.capacity == MAX_SCAN_EVENTS
    }

    ghost function State(): Logger
      reads Parts()
    {
      Logger(
        Counted(btSessionQueue.queue, numBluetoothSession),
        Counted(pairEventQueue.queue, numPairEvent),
        Counted(wakeEventQueue.queue, numWakeEvent),
        Counted(scanEventQueue.queue, numScanEvent),
        bluetoothSession, bluetoothSessionStartTimeMs, a2dpSessionMetrics.Value(), headsetProfileConnectionCounts)
    }

    constructor ()
      ensures Valid() && fresh(Parts()) && State() == EMPTY
    {
      btSessionQueue := new LeakyBondedQueue(MAX_SESSIONS);
      pairEventQueue := new LeakyBondedQueue(MAX_PAIR_EVENTS);
      wakeEventQueue := new LeakyBondedQueue(MAX_WAKE_EVENTS);
      scanEventQueue := new LeakyBondedQueue(MAX_SCAN_EVENTS);
      a2dpSessionMetrics := new A2dpSessionMetrics();
      numBluetoothSession, numPairEvent, numWakeEvent, numScanEvent := 0, 0, 0, 0;
      bluetoothSession, bluetoothSessionStartTimeMs := None, 0;
      headsetProfileConnectionCounts := NO_CONNECTIONS;
    }

    method LogPairEvent(e: PairEvent)
      requires Valid()
      modifies this, pairEventQueue
      ensures Valid() && State() == Step(old(State()), LogPair(e), Clock(0, 0))
    {
      pairEventQueue.Enqueue(e);
      numPairEvent := numPairEvent + 1;
    }

    method LogWakeEvent(e: WakeEvent)
      requires Valid()
      modifies this, wakeEventQueue
      ensures Valid() && State() == Step(old(State()), LogWake(e), Clock(0, 0))
    {
      wakeEventQueue.Enqueue(e);
      numWakeEvent := numWakeEvent + 1;
    }

    method LogScanEvent(e: ScanEvent)
      requires Valid()
      modifies this, scanEventQueue
      ensures Valid() && State() == Step(old(State()), LogScan(e), Clock(0, 0))
    {
      scanEventQueue.Enqueue(e);
      numScanEvent := numScanEvent + 1;
    }

    /** `now` is the boot time the method reads when it needs it. */
    method LogBluetoothSessionEnd(reason: DisconnectReason, timestampMs: nat, now: nat)
      requires Valid()
      modifies this, btSessionQueue, a2dpSessionMetrics
      ensures Valid() && State() == SessionEnded(old(State()), reason, timestampMs, now)
    {
      if bluetoothSession.None? { return; }
      var duration := DurationSec(At(timestampMs, now), bluetoothSessionStartTimeMs);
      btSessionQueue.Enqueue(bluetoothSession.value.(ended := Some((reason, duration))));
      bluetoothSession := None;
      a2dpSessionMetrics.Clear();
      numBluetoothSession := numBluetoothSession + 1;
    }

    /** `clock` are the two readings of the boot time, the first of which may go to the end of the open session. */
    method LogBluetoothSessionStart(tech: ConnectionTech, timestampMs: nat, clock: Clock)
      requires Valid()
      modifies this, btSessionQueue, a2dpSessionMetrics
      ensures Valid() && State() == SessionStarted(old(State()), tech, timestampMs, clock)
    {
      var now := clock.now;
      if bluetoothSession.Some? {
        LogBluetoothSessionEnd(NextStartWithoutEndPrevious, 0, clock.now);
        now := clock.next;
      }
      bluetoothSessionStartTimeMs := At(timestampMs, now);
      bluetoothSession := Some(Session(tech, None, None, None));
    }

    method LogBluetoothSessionDeviceInfo(deviceClass: nat, clock: Clock)
      requires Valid()
      modifies this, btSessionQueue, a2dpSessionMetrics
      ensures Valid() && State() == DeviceInfoLogged(old(State()), deviceClass, clock)
    {
      if bluetoothSession.None? {
        LogBluetoothSessionStart(TechUnknown, 0, clock);
      }
      bluetoothSession := Some(bluetoothSession.value.(deviceClass := Some(deviceClass)));
    }

    method LogA2dpSession(m: Metrics, clock: Clock)
      requires Valid()
      modifies this, btSessionQueue, a2dpSessionMetrics
      ensures Valid() && State() == A2dpLogged(old(State()), m, clock)
    {
      if bluetoothSession.None? {
        LogBluetoothSessionStart(TechBredr, 0, clock);
        LogBluetoothSessionDeviceInfo(AUDIO_CLASS, clock);
      }
      a2dpSessionMetrics.UpdateWith(m);
      bluetoothSession := Some(bluetoothSession.value.(a2dp := Some(a2dpSessionMetrics.Value())));
    }

    method LogHeadsetProfileRfcConnection(service: Service)
      requires Valid()
      modifies this`headsetProfileConnectionCounts
      ensures Valid() && State() == Step(old(State()), LogHeadset(service), Clock(0, 0))
    {
      var profile := ProfileOf(service);
      headsetProfileConnectionCounts :=
        headsetProfileConnectionCounts[profile := headsetProfileConnectionCounts[profile] + 1];
    }

    method CutoffSession(clock: Clock)
      requires Valid()
      modifies this, btSessionQueue, a2dpSessionMetrics
      ensures Valid() && State() == CutOff(old(State()), clock)
    {
      if bluetoothSession.Some? {
        var copy := bluetoothSession.value.(a2dp := None);
        LogBluetoothSessionEnd(MetricsDump, 0, clock.now);
        bluetoothSession := Some(copy);
        bluetoothSessionStartTimeMs := clock.next;
        a2dpSessionMetrics.Clear();
      }
    }

    /** The loops of Build over the three kinds of events. */
    method DrainEvents() returns (pairs: seq<PairEvent>, scans: seq<ScanEvent>, wakes: seq<WakeEvent>)
      requires Valid()
      modifies pairEventQueue, scanEventQueue, wakeEventQueue
      ensures Valid() && pairEventQueue.queue == [] && scanEventQueue.queue == [] && wakeEventQueue.queue == []
      ensures pairs == old(pairEventQueue.queue) && scans == old(scanEventQueue.queue)
      ensures wakes == old(wakeEventQueue.queue)
    {
      pairs := Drain(pairEventQueue, []);
      scans := Drain(scanEventQueue, []);
      wakes := Drain(wakeEventQueue, []);
    }

    /** WriteString with Build inside: the log is filled, handed over and cleared. */
    method WriteString(clock: Clock) returns (dump: Dump)
      requires Valid()
      modifies Parts()
      ensures Valid() && State() == Dumped(old(State()), clock)
      ensures dump == DumpOf(old(State()), clock)
    {
      CutoffSession(clock);
      var sessions := Drain(btSessionQueue, []);
      var pairs, scans, wakes := DrainEvents();
      assert btSessionQueue.queue == [];  // so the trailing loop over wake events does not run
      var headsets := EmitHeadsets(headsetProfileConnectionCounts);
      dump := Dump(
        sessions, numBluetoothSession, pairs, numPairEvent, wakes, numWakeEvent, scans, numScanEvent, headsets);
      headsetProfileConnectionCounts := NO_CONNECTIONS;
      numBluetoothSession, numPairEvent, numWakeEvent, numScanEvent := 0, 0, 0, 0;
    }

    method ResetAll()
      requires Valid()
      modifies Parts()
      ensures Valid() && State() == EMPTY.(headset := old(headsetProfileConnectionCounts))
    {
      bluetoothSession := None;
      bluetoothSessionStartTimeMs := 0;
      a2dpSessionMetrics.Clear();
      numBluetoothSession, numPairEvent, numWakeEvent, numScanEvent := 0, 0, 0, 0;
      btSessionQueue.Clear();
      pairEventQueue.Clear();
      wakeEventQueue.Clear();
      scanEventQueue.Clear();
    }
  }
}
