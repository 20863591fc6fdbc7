/** The app's view model: the current screen, the recording flag, the trip
    being shown, the trip list, and the flags derived from the sensors, the
    BLE link and the Wi-Fi SSID. Clock readings, the sensor probes and the
    recording service's status stream arrive as parameters. */
module AppViewModel {
  import opened Common
  import opened Text
  import opened Models
  import BleService

  const DEFAULT_VEHICLE_ID: string := "BUS-042"
  const DEFAULT_ROUTE_ID: string := "ROUTE-A12"
  const DEPOT_SSID: string := "AndroidWifi"

  datatype ViewModel = ViewModel(
    currentView: AppView,
    isRecording: bool,
    currentTrip: Option<Trip>,
    trips: seq<Trip>,
    sensorStatus: SensorStatus,
    vehicleId: string,
    isWifiConnected: bool,
    isPreviewMode: bool,
    tripSummarySource: TripSummarySource,
    bleState: BleService.ConnState,
    recordingElapsedMs: Int64,
    tripDirectory: Option<string>)

  function Initial(): (vm: ViewModel)
    ensures vm.currentView == Dashboard && !vm.isRecording && vm.currentTrip.None? && vm.trips == []
    ensures vm.isPreviewMode && vm.tripSummarySource == FromRecording && vm.bleState == BleService.Disconnected
  {
    ViewModel(Dashboard, false, None, [], DEFAULT_SENSOR_STATUS, DEFAULT_VEHICLE_ID, false, true,
              FromRecording, BleService.Disconnected, 0, None)
  }

  // ---------------------------------------------------------------------
  // Derived flags
  // ---------------------------------------------------------------------

  /** The bluetooth flag: the link is connected. */
  predicate BluetoothFlag(st: BleService.ConnState) {
    st.Connected?
  }

  /** `updateSensorStatus` with the probes' answers. */
  function UpdateSensorStatus(vm: ViewModel, camera: bool, gps: bool, imu: bool, storage: Int32): (r: ViewModel)
    ensures r.sensorStatus.bluetooth <==> vm.bleState == BleService.Connected
    ensures r.sensorStatus.camera == camera && r.sensorStatus.gps == gps && r.sensorStatus.imu == imu
    ensures r.sensorStatus.storage == storage
    ensures r.(sensorStatus := vm.sensorStatus) == vm
  {
    vm.(sensorStatus := SensorStatus(camera, gps, imu, BluetoothFlag(vm.bleState), storage))
  }

  /** A new link state from the BLE manager, then a sensor refresh. */
  function OnBleState(vm: ViewModel, st: BleService.ConnState, camera: bool, gps: bool, imu: bool, storage: Int32): (r: ViewModel)
    ensures r.bleState == st
    ensures r.sensorStatus.bluetooth <==> st == BleService.Connected
  {
    UpdateSensorStatus(vm.(bleState := st), camera, gps, imu, storage)
  }

  /** The Wi-Fi flag: the SSID, with every double quote removed, is the
      depot network; no SSID reads as the empty one. */
  predicate WifiFlag(ssid: Option<string>) {
    RemoveAll(ssid.GetOr(""), '"') == DEPOT_SSID
  }

  /** Removing the quotes Android puts around an SSID. */
  lemma UnquoteSsid(name: string)
    requires '"' !in name
    ensures RemoveAll("\"" + name + "\"", '"') == name
  {
    RemoveAllAbsent(name, '"');
    RemoveAllConcat("\"", name, '"');
    RemoveAllConcat("\"" + name, "\"", '"');
  }

  /** The flag holds for the depot SSID, quoted as Android reports it or not. */
  lemma WifiFlagOnDepot()
    ensures WifiFlag(Some("\"" + DEPOT_SSID + "\""))
    ensures WifiFlag(Some(DEPOT_SSID))
  {
    UnquoteSsid(DEPOT_SSID);
    RemoveAllAbsent(DEPOT_SSID, '"');
  }

  /** The flag is down for a missing SSID and for a longer name. */
  lemma WifiFlagOffElsewhere()
    ensures !WifiFlag(None)
    ensures !WifiFlag(Some("\"" + DEPOT_SSID + "-5G\""))
  {
    var other := DEPOT_SSID + "-5G";
    assert '"' !in other;
    UnquoteSsid(other);
    assert "\"" + DEPOT_SSID + "-5G\"" == "\"" + other + "\"";
    assert |other| != |DEPOT_SSID|;
  }

  /** A raised flag means the SSID holds the depot name's characters and
      nothing else but quotes. */
  lemma WifiFlagMeansDepot(ssid: Option<string>)
    requires WifiFlag(ssid)
    ensures ssid.Some?
    ensures forall c :: c != '"' ==> multiset(ssid.value)[c] == multiset(DEPOT_SSID)[c]
  {
  }

  // ---------------------------------------------------------------------
  // Trips
  // ---------------------------------------------------------------------

  /** The clock readings `startRecording` formats. */
  datatype Clock = Clock(stampId: TripId, date: string, time: string)

  /** `startRecording`: recording, on the recording screen, with a fresh
      pending trip under the given id or one made from the clock. */
  function StartRecording(vm: ViewModel, tripId: Option<TripId>, now: Clock): (r: ViewModel)
    ensures r.isRecording && r.currentView == Recording
    ensures r.currentTrip.Some?
    ensures var t := r.currentTrip.value;
      && t.id == tripId.GetOr(now.stampId)
      && t.duration == 0 && t.coverage == 0 && t.uploadStatus == Pending && t.uploadProgress == 0
      && t.vehicleId == vm.vehicleId && t.routeId == DEFAULT_ROUTE_ID
    ensures r.trips == vm.trips
  {
    var t := Trip(tripId.GetOr(now.stampId), now.date, now.time, 0, 0, DEFAULT_ROUTE_ID, vm.vehicleId, 0, Pending, 0);
    vm.(isRecording := true, currentView := Recording, currentTrip := Some(t))
  }

  /** The recording service's status stream: elapsed time and recording flag. */
  function OnRecordingStatus(vm: ViewModel, elapsedMs: Int64, isRecording: bool): (r: ViewModel)
    ensures r.recordingElapsedMs == elapsedMs && r.isRecording == isRecording
    ensures r.(recordingElapsedMs := vm.recordingElapsedMs, isRecording := vm.isRecording) == vm
  {
    vm.(recordingElapsedMs := elapsedMs, isRecording := isRecording)
  }

  /** Whole seconds of a millisecond count, as `(ms / 1000).toInt()`. */
  function ElapsedSeconds(ms: Int64): (r: Int32)
    ensures 0 <= ms < 0x8000_0000 * 1000 ==> r as int * 1000 <= ms < (r as int + 1) * 1000
  {
    WrapInt32(Quot(ms, 1000))
  }

  /** `completeJourney`: nothing without a current trip; otherwise the trip,
      with its duration and distance filled in and status pending, goes to
      the front of the list and becomes current, and the summary opens. */
  function CompleteJourney(vm: ViewModel, distanceKm: Float32): (r: ViewModel)
    ensures vm.currentTrip.None? ==> r == vm
    ensures vm.currentTrip.Some? ==>
      && |r.trips| == |vm.trips| + 1 && r.trips[1..] == vm.trips
      && r.currentTrip == Some(r.trips[0])
      && r.trips[0] == vm.currentTrip.value.(duration := ElapsedSeconds(vm.recordingElapsedMs),
                                             distance := distanceKm, uploadStatus := Pending)
      && !r.isRecording && r.currentView == TripSummary && r.tripSummarySource == FromRecording
  {
    match vm.currentTrip
    case None => vm
    case Some(trip) =>
      var done := trip.(duration := ElapsedSeconds(vm.recordingElapsedMs), distance := distanceKm, uploadStatus := Pending);
      vm.(isRecording := false, trips := [done] + vm.trips, currentTrip := Some(done),
          tripSummarySource := FromRecording, currentView := TripSummary)
  }

  /** `setCurrentTrip`: show a trip picked from the queue. */
  function SetCurrentTrip(vm: ViewModel, t: Trip): (r: ViewModel)
    ensures r.currentTrip == Some(t) && r.tripSummarySource == FromQueue
    ensures r.(currentTrip := vm.currentTrip, tripSummarySource := vm.tripSummarySource) == vm
  {
    vm.(currentTrip := Some(t), tripSummarySource := FromQueue)
  }

  /** `navigateToView`: going home also forgets the current trip and
      resets the summary's origin; any other view only switches screens. */
  function NavigateToView(vm: ViewModel, v: AppView): (r: ViewModel)
    ensures r.currentView == v
    ensures v == Dashboard ==> r.currentTrip.None? && r.tripSummarySource == FromRecording
    ensures v != Dashboard ==> r == vm.(currentView := v)
    ensures r.trips == vm.trips && r.isRecording == vm.isRecording
  {
    if v == Dashboard then vm.(currentView := v, currentTrip := None, tripSummarySource := FromRecording)
    else vm.(currentView := v)
  }

  function SetIsPreviewMode(vm: ViewModel, value: bool): (r: ViewModel)
    ensures r.isPreviewMode == value && r.(isPreviewMode := vm.isPreviewMode) == vm
  {
    vm.(isPreviewMode := value)
  }

  /** Every trip in the list with the argument's id replaced by it. */
  function ReplaceById(trips: seq<Trip>, t: Trip): (r: seq<Trip>)
    ensures |r| == |trips|
    ensures forall i :: 0 <= i < |trips| && trips[i].id == t.id ==> r[i] == t
    ensures forall i :: 0 <= i < |trips| && trips[i].id != t.id ==> r[i] == trips[i]
  {
    seq(|trips|, i requires 0 <= i < |trips| => if trips[i].id == t.id then t else trips[i])
  }

  /** `updateTrip`: the list entries with the trip's id, and the current
      trip when its id matches, become the trip. */
  function UpdateTrip(vm: ViewModel, t: Trip): (r: ViewModel)
    ensures r.trips == ReplaceById(vm.trips, t)
    ensures vm.currentTrip.Some? && vm.currentTrip.value.id == t.id ==> r.currentTrip == Some(t)
    ensures !(vm.currentTrip.Some? && vm.currentTrip.value.id == t.id) ==> r.currentTrip == vm.currentTrip
    ensures r.(trips := vm.trips, currentTrip := vm.currentTrip) == vm
  {
    var vm1 := vm.(trips := ReplaceById(vm.trips, t));
    if vm.currentTrip.Some? && vm.currentTrip.value.id == t.id then vm1.(currentTrip := Some(t)) else vm1
  }

  /** Updating keeps the list's ids in place, and updating twice with the
      same trip is updating once. */
  lemma UpdateTripKeepsIds(vm: ViewModel, t: Trip)
    ensures forall i :: 0 <= i < |vm.trips| ==> UpdateTrip(vm, t).trips[i].id == vm.trips[i].id
    ensures UpdateTrip(UpdateTrip(vm, t), t) == UpdateTrip(vm, t)
  {
  }

  /** The status test of `pendingUploads`. */
  predicate NotCompleted(st: UploadStatus) {
    st != Completed
  }

  /** `pendingUploads`: trips not yet uploaded. */
  function PendingUploads(vm: ViewModel): (n: nat)
    ensures n <= |vm.trips|
  {
    CountStatus(vm.trips, NotCompleted)
  }

  /** The pending and the uploaded trips account for the whole list. */
  lemma PendingPlusUploaded(vm: ViewModel)
    ensures PendingUploads(vm) + CountStatus(vm.trips, IsCompleted) == |vm.trips|
  {
    CountComplement(vm.trips, NotCompleted, IsCompleted);
  }

  /** A finished journey adds one pending upload. */
  lemma CompleteJourneyAddsPending(vm: ViewModel, distanceKm: Float32)
    requires vm.currentTrip.Some?
    ensures PendingUploads(CompleteJourney(vm, distanceKm)) == PendingUploads(vm) + 1
  {
    var r := CompleteJourney(vm, distanceKm);
    assert r.trips[1..] == vm.trips;
  }
}
