/** The BLE link to the ESP32 unit as a state machine: scanning for the
    device, connecting over GATT, discovering the sensor characteristic, the
    single-shot reconnect job and the stream of accepted notifications.
    Platform callbacks and coroutine wake-ups are events; each event is
    handled to completion before the next. */
module BleService {
  import opened Common
  import Text
  import BleConfig
  import BlePacket

  /** `BleConnectionState`. */
  datatype ConnState = Disconnected | Connecting | Connected | Error(message: string)

  /** The fields of the service that decide its behaviour.
      `reconnectJob` is the pending reconnect coroutine with its delay;
      `scanTimeouts` counts the scan-timeout coroutines not yet woken. */
  datatype Link = Link(
    conn: ConnState,
    targetKnown: bool,
    isReconnecting: bool,
    reconnectJob: Option<nat>,
    gattOpen: bool,
    scanning: bool,
    scanTimeouts: nat,
    notificationsEnabled: bool,
    cccdWritten: bool,
    emitted: seq<BlePacket.Packet>)

  /** A freshly created service. */
  const Initial: Link :=
    Link(Disconnected, false, false, None, false, false, 0, false, false, [])

  datatype Event =
    | StartConnection
    | ScanResult
    | ScanFailed(code: int)
    | ScanTimeout
    | GattConnected
    | GattDisconnected
    | ServicesDiscovered(success: bool, characteristicPresent: bool, cccdPresent: bool)
    | ReconnectFired
    | Disconnect
    | Payload(data: seq<BlePacket.byte>, receivedAt: Int64)

  /** `scheduleReconnect`: ignored while the latch is set; otherwise sets the
      latch and replaces any pending job with one that fires after the fixed delay. */
  function ScheduleReconnect(l: Link): (r: Link)
    ensures r.isReconnecting && r.conn == l.conn && r.emitted == l.emitted
    ensures l.isReconnecting ==> r == l
    ensures !l.isReconnecting ==> r.reconnectJob == Some(BleConfig.RECONNECT_DELAY_MS)
  {
    if l.isReconnecting then l
    else l.(isReconnecting := true, reconnectJob := Some(BleConfig.RECONNECT_DELAY_MS))
  }

  /** `startScan`: start scanning and launch the scan-timeout coroutine. */
  function StartScan(l: Link): (r: Link)
    ensures r.scanning && r.scanTimeouts == l.scanTimeouts + 1
  {
    l.(scanning := true, scanTimeouts := l.scanTimeouts + 1)
  }

  /** `startConnection`: a no-op while connected or connecting; otherwise
      the link goes to Connecting and a scan starts. */
  function OnStartConnection(l: Link): (r: Link)
    ensures l.conn == Connected || l.conn == Connecting ==> r == l
    ensures l.conn != Connected && l.conn != Connecting ==>
      r.conn == Connecting && r.scanning && r.scanTimeouts == l.scanTimeouts + 1
      && r.isReconnecting == l.isReconnecting && r.reconnectJob == l.reconnectJob
  {
    if l.conn == Connected || l.conn == Connecting then l
    else StartScan(l.(conn := Connecting))
  }

  /** `onScanResult` with a device: stop scanning, remember the device and
      open a GATT connection; the connection state is untouched. */
  function OnScanResult(l: Link): (r: Link)
    ensures r.targetKnown && !r.scanning && r.gattOpen
    ensures r.conn == l.conn && r.isReconnecting == l.isReconnecting && r.reconnectJob == l.reconnectJob
  {
    l.(scanning := false, targetKnown := true, gattOpen := true)
  }

  /** `onScanFailed`: an error naming the code, and a reconnect request. */
  function OnScanFailed(l: Link, code: int): (r: Link)
    ensures r.conn == Error("Scan failed: " + Text.IntToDecimal(code))
    ensures r == ScheduleReconnect(l.(conn := r.conn))
  {
    ScheduleReconnect(l.(conn := Error("Scan failed: " + Text.IntToDecimal(code))))
  }

  /** The scan-timeout coroutine waking up: scanning stops; if the link is
      still connecting and no device was found, it fails and asks for a reconnect. */
  function OnScanTimeout(l: Link): (r: Link)
    requires l.scanTimeouts > 0
    ensures !r.scanning && r.scanTimeouts == l.scanTimeouts - 1
    ensures l.conn == Connecting && !l.targetKnown ==>
      r.conn == Error("Device not found") && r.isReconnecting
    ensures !(l.conn == Connecting && !l.targetKnown) ==>
      r.conn == l.conn && r.isReconnecting == l.isReconnecting && r.reconnectJob == l.reconnectJob
  {
    var s := l.(scanning := false, scanTimeouts := l.scanTimeouts - 1);
    if s.conn == Connecting && !s.targetKnown then ScheduleReconnect(s.(conn := Error("Device not found")))
    else s
  }

  /** GATT `STATE_CONNECTED`: clears the latch, cancels the pending job and
      asks for the MTU and service discovery; the state stays as it was. */
  function OnGattConnected(l: Link): (r: Link)
    ensures r.conn == l.conn && !r.isReconnecting && r.reconnectJob == None
  {
    l.(isReconnecting := false, reconnectJob := None)
  }

  /** GATT `STATE_DISCONNECTED`: Disconnected, the handle is closed and
      dropped, and a reconnect is requested. */
  function OnGattDisconnected(l: Link): (r: Link)
    ensures r.conn == Disconnected && !r.gattOpen && r.isReconnecting
  {
    ScheduleReconnect(l.(conn := Disconnected, gattOpen := false))
  }

  /** `onServicesDiscovered`. On success with the characteristic present,
      notifications are enabled, the descriptor is written if it exists, and
      the link is Connected at once (before any write confirmation). A missing
      characteristic is an error with a reconnect request; a failed discovery
      changes nothing. */
  function OnServicesDiscovered(l: Link, success: bool, characteristicPresent: bool, cccdPresent: bool): (r: Link)
    ensures !success ==> r == l
    ensures success && characteristicPresent ==>
      r.conn == Connected && r.notificationsEnabled && r.cccdWritten == (l.cccdWritten || cccdPresent)
    ensures success && !characteristicPresent ==>
      r.conn == Error("Characteristic not found") && r.isReconnecting
  {
    if !success then l
    else if characteristicPresent then
      l.(notificationsEnabled := true, cccdWritten := l.cccdWritten || cccdPresent, conn := Connected)
    else ScheduleReconnect(l.(conn := Error("Characteristic not found")))
  }

  /** The reconnect coroutine running after its delay: with a known device it
      goes to Connecting and opens a GATT connection directly; otherwise it
      calls `startConnection`. The latch is left as it is. */
  function OnReconnectFired(l: Link): (r: Link)
    requires l.reconnectJob.Some?
    ensures r.reconnectJob == None && r.isReconnecting == l.isReconnecting
    ensures l.targetKnown ==> r.conn == Connecting && r.gattOpen
    ensures !l.targetKnown ==> r == OnStartConnection(l.(reconnectJob := None))
  {
    var s := l.(reconnectJob := None);
    if s.targetKnown then s.(conn := Connecting, gattOpen := true)
    else OnStartConnection(s)
  }

  /** `disconnect`: cancel the job, clear the latch, close the handle, Disconnected. */
  function OnDisconnect(l: Link): (r: Link)
    ensures r.conn == Disconnected && !r.gattOpen && !r.isReconnecting && r.reconnectJob == None
    ensures r.emitted == l.emitted && r.targetKnown == l.targetKnown
  {
    l.(reconnectJob := None, isReconnecting := false, gattOpen := false, conn := Disconnected)
  }

  /** `handleIncomingData`: exactly 44-byte payloads are emitted, as a copy
      stamped with the receipt time; anything else is dropped. */
  function OnPayload(l: Link, data: seq<BlePacket.byte>, receivedAt: Int64): (r: Link)
    ensures |data| == BleConfig.EXPECTED_PACKET_SIZE ==>
      r.emitted == l.emitted + [BlePacket.Packet(data, receivedAt)]
    ensures |data| != BleConfig.EXPECTED_PACKET_SIZE ==> r == l
    ensures r.conn == l.conn && r.isReconnecting == l.isReconnecting
  {
    if |data| == BleConfig.EXPECTED_PACKET_SIZE then
      l.(emitted := l.emitted + [BlePacket.Packet(data, receivedAt)])
    else l
  }

  /** One event, handled as the service does. A timer event with no timer
      pending cannot be delivered and leaves the link as it is. */
  function Step(l: Link, e: Event): Link {
    match e
    case StartConnection => OnStartConnection(l)
    case ScanResult => OnScanResult(l)
    case ScanFailed(code) => OnScanFailed(l, code)
    case ScanTimeout => if l.scanTimeouts > 0 then OnScanTimeout(l) else l
    case GattConnected => OnGattConnected(l)
    case GattDisconnected => OnGattDisconnected(l)
    case ServicesDiscovered(ok, ch, cccd) => OnServicesDiscovered(l, ok, ch, cccd)
    case ReconnectFired => if l.reconnectJob.Some? then OnReconnectFired(l) else l
    case Disconnect => OnDisconnect(l)
    case Payload(data, at) => OnPayload(l, data, at)
  }

  function Run(l: Link, evs: seq<Event>): Link
    decreases |evs|
  {
    if evs == [] then l else Run(Step(l, evs[0]), evs[1..])
  }

  // ---------------------------------------------------------------------
  // Properties of the link as written
  // ---------------------------------------------------------------------

  /** The link invariant: a pending job exists only under the latch, and
      always with the fixed reconnect delay; every emitted packet is a whole frame. */
  predicate Inv(l: Link) {
    && (l.reconnectJob.Some? ==> l.isReconnecting && l.reconnectJob.value == BleConfig.RECONNECT_DELAY_MS)
    && (forall i :: 0 <= i < |l.emitted| ==> |l.emitted[i].data| == BleConfig.EXPECTED_PACKET_SIZE)
  }

  lemma InitialInv()
    ensures Inv(Initial) && Initial.conn == Disconnected && !Initial.isReconnecting
  {
  }

  /** Every step keeps the invariant and only ever appends to the packet stream. */
  lemma StepPreservesInv(l: Link, e: Event)
    requires Inv(l)
    ensures Inv(Step(l, e))
    ensures l.emitted <= Step(l, e).emitted
  {
    match e
    case Payload(data, at) => PayloadPreservesInv(l, data, at);
    case _ =>
  }

  lemma PayloadPreservesInv(l: Link, data: seq<BlePacket.byte>, receivedAt: Int64)
    requires Inv(l)
    ensures Inv(OnPayload(l, data, receivedAt))
    ensures l.emitted <= OnPayload(l, data, receivedAt).emitted
  {
    var r := OnPayload(l, data, receivedAt);
    if |data| == BleConfig.EXPECTED_PACKET_SIZE {
      assert forall i :: 0 <= i < |l.emitted| ==> r.emitted[i] == l.emitted[i];
      assert r.emitted[|l.emitted|].data == data;
    }
  }

  lemma {:induction false} RunPreservesInv(l: Link, evs: seq<Event>)
    requires Inv(l)
    ensures Inv(Run(l, evs))
    ensures l.emitted <= Run(l, evs).emitted
    decreases |evs|
  {
    if evs != [] {
      StepPreservesInv(l, evs[0]);
      RunPreservesInv(Step(l, evs[0]), evs[1..]);
    }
  }

  /** Connected is entered only through successful discovery with the characteristic present... */
  lemma ConnectedOnlyByDiscovery(l: Link, e: Event)
    requires l.conn != Connected && Step(l, e).conn == Connected
    ensures e.ServicesDiscovered? && e.success && e.characteristicPresent
  {
  }

  /** ...and that always connects, whether or not the descriptor exists. */
  lemma DiscoveryConnectsWithoutDescriptor(l: Link, cccd: bool)
    ensures Step(l, ServicesDiscovered(true, true, cccd)).conn == Connected
    ensures Step(l, ServicesDiscovered(true, true, false)).cccdWritten == l.cccdWritten
  {
  }

  predicate ClearsLatch(e: Event) {
    e.GattConnected? || e.Disconnect?
  }

  lemma StepKeepsLatch(l: Link, e: Event)
    requires l.isReconnecting && l.reconnectJob == None && !ClearsLatch(e)
    ensures Step(l, e).isReconnecting && Step(l, e).reconnectJob == None
  {
    match e
    case ReconnectFired =>
    case ScanTimeout =>
    case _ =>
  }

  /** While the latch is set, no step schedules a job: once the job has fired
      (or been cancelled), no other job appears until a GATT connection or
      `disconnect()` clears the latch. */
  lemma {:induction false} LatchBlocksReconnect(l: Link, evs: seq<Event>)
    requires l.isReconnecting && l.reconnectJob == None
    requires forall i :: 0 <= i < |evs| ==> !ClearsLatch(evs[i])
    ensures Run(l, evs).isReconnecting && Run(l, evs).reconnectJob == None
    decreases |evs|
  {
    if evs != [] {
      var s := Step(l, evs[0]);
      StepKeepsLatch(l, evs[0]);
      assert forall i :: 0 <= i < |evs[1..]| ==> !ClearsLatch(evs[1..][i]) by {
        forall i | 0 <= i < |evs[1..]| ensures !ClearsLatch(evs[1..][i]) {
          assert evs[1..][i] == evs[i + 1];
        }
      }
      LatchBlocksReconnect(s, evs[1..]);
    }
  }

  /** The scenario of a device that is out of range: the first scan times
      out, the reconnect fires and scans again, that scan times out too. */
  const OutOfRangeTrace: seq<Event> := [StartConnection, ScanTimeout, ReconnectFired, ScanTimeout]

  /** As written, the link ends in an error with the latch set and no job
      pending, so by `LatchBlocksReconnect` it never retries on its own. */
  lemma OutOfRangeGivesUp()
    ensures Run(Initial, OutOfRangeTrace).conn == Error("Device not found")
    ensures Run(Initial, OutOfRangeTrace).isReconnecting
    ensures Run(Initial, OutOfRangeTrace).reconnectJob == None
  {
    var s1 := Step(Initial, StartConnection);
    var s2 := Step(s1, ScanTimeout);
    var s3 := Step(s2, ReconnectFired);
    var s4 := Step(s3, ScanTimeout);
    assert s4.conn == Error("Device not found") && s4.isReconnecting && s4.reconnectJob == None;
    assert Run(Initial, OutOfRangeTrace) == Run(s1, OutOfRangeTrace[1..]);
    assert Run(s1, OutOfRangeTrace[1..]) == Run(s2, OutOfRangeTrace[2..]);
    assert Run(s2, OutOfRangeTrace[2..]) == Run(s3, OutOfRangeTrace[3..]);
    assert Run(s3, OutOfRangeTrace[3..]) == Run(s4, []);
  }

  // ---------------------------------------------------------------------
  // Corrected reconnect: the job clears the latch when it runs
  // ---------------------------------------------------------------------

  /** As `Step`, except that the reconnect job releases the latch as it
      starts, so that a failure of the attempt can schedule the next one. */
  function StepRetrying(l: Link, e: Event): (r: Link)
    ensures !(e.ReconnectFired? && l.reconnectJob.Some?) ==> r == Step(l, e)
  {
    if e.ReconnectFired? && l.reconnectJob.Some? then OnReconnectFired(l.(isReconnecting := false))
    else Step(l, e)
  }

  function RunRetrying(l: Link, evs: seq<Event>): Link
    decreases |evs|
  {
    if evs == [] then l else RunRetrying(StepRetrying(l, evs[0]), evs[1..])
  }

  /** In the corrected link the latch means exactly "a job is pending". */
  predicate LatchExact(l: Link) {
    l.isReconnecting <==> l.reconnectJob.Some?
  }

  lemma StepRetryingKeepsLatchExact(l: Link, e: Event)
    requires LatchExact(l) && Inv(l)
    ensures LatchExact(StepRetrying(l, e)) && Inv(StepRetrying(l, e))
  {
    if !(e.ReconnectFired? && l.reconnectJob.Some?) {
      StepPreservesInv(l, e);
      StepKeepsLatchExact(l, e);
    }
  }

  lemma StepKeepsLatchExact(l: Link, e: Event)
    requires LatchExact(l) && Inv(l)
    requires !(e.ReconnectFired? && l.reconnectJob.Some?)
    ensures LatchExact(Step(l, e))
  {
  }

  /** A step that ends in a failure (an error or a GATT disconnection) always
      leaves a reconnect pending in the corrected link. */
  lemma FailureAlwaysRetries(l: Link, e: Event)
    requires LatchExact(l) && Inv(l)
    requires !e.Disconnect?
    requires StepRetrying(l, e).conn != l.conn
    requires StepRetrying(l, e).conn.Error? || StepRetrying(l, e).conn == Disconnected
    ensures StepRetrying(l, e).reconnectJob == Some(BleConfig.RECONNECT_DELAY_MS)
  {
    match e
    case ReconnectFired =>
    case ScanTimeout =>
    case _ =>
  }

  /** On the out-of-range scenario the corrected link schedules a second retry. */
  lemma OutOfRangeKeepsRetrying()
    ensures RunRetrying(Initial, OutOfRangeTrace).conn == Error("Device not found")
    ensures RunRetrying(Initial, OutOfRangeTrace).reconnectJob == Some(BleConfig.RECONNECT_DELAY_MS)
  {
    var s1 := StepRetrying(Initial, StartConnection);
    var s2 := StepRetrying(s1, ScanTimeout);
    var s3 := StepRetrying(s2, ReconnectFired);
    var s4 := StepRetrying(s3, ScanTimeout);
    assert s4.reconnectJob == Some(BleConfig.RECONNECT_DELAY_MS);
    assert RunRetrying(Initial, OutOfRangeTrace) == RunRetrying(s1, OutOfRangeTrace[1..]);
    assert RunRetrying(s1, OutOfRangeTrace[1..]) == RunRetrying(s2, OutOfRangeTrace[2..]);
    assert RunRetrying(s2, OutOfRangeTrace[2..]) == RunRetrying(s3, OutOfRangeTrace[3..]);
    assert RunRetrying(s3, OutOfRangeTrace[3..]) == RunRetrying(s4, []);
  }
}
