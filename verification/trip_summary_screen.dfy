/** The trip summary screen: the upload button and what it enqueues, the
    receiver that counts upload broadcasts for the shown trip, the stop on
    leaving the geofence, the way home, and the duration formats. */
module TripSummaryScreen {
  import opened Common
  import opened Text
  import opened Models
  import opened AppViewModel
  import FileManager
  import WifiGateManager

  /** The number of completions the receiver waits for (video, GPS, IMU). */
  const TOTAL_FILES_TO_UPLOAD: Int32 := 3

  const GPS_CSV_HEADER: string := "timestamp,latitude,longitude,altitude,speed,accuracy\n"
  const IMU_CSV_HEADER: string := "timestamp,accel_x,accel_y,accel_z,gyro_x,gyro_y,gyro_z\n"

  /** The screen's state: the trip the receiver was registered with, the
      upload flag and the completion counter. */
  datatype Summary = Summary(trip: Trip, uploadTriggered: bool, uploadedFilesCount: Int32)

  /** A broadcast from the upload service; the trip id is compared by value. */
  datatype Received =
    | UploadComplete(tripId: Option<TripId>, s3Key: string)
    | UploadFailed(tripId: Option<TripId>, error: string)

  /** The screen opens on the current trip and starts the Wi-Fi monitor. */
  function Open(vm: ViewModel, gate: WifiGateManager.Gate): (r: (Summary, WifiGateManager.Gate))
    requires vm.currentTrip.Some?
    ensures r.0.trip == vm.currentTrip.value && !r.0.uploadTriggered && r.0.uploadedFilesCount == 0
    ensures r.1 == WifiGateManager.StartMonitoring(gate)
  {
    (Summary(vm.currentTrip.value, false, 0), WifiGateManager.StartMonitoring(gate))
  }

  /** Both gates: the depot Wi-Fi gate and the geofence. */
  predicate GatesReady(gate: WifiGateManager.Gate, insideGeofence: bool) {
    gate.status.gatePassed && insideGeofence
  }

  /** Once the screen is open the Wi-Fi gate is passed, so the geofence
      alone decides. */
  lemma OpenedGatesFollowGeofence(vm: ViewModel, gate: WifiGateManager.Gate, insideGeofence: bool)
    requires vm.currentTrip.Some?
    ensures GatesReady(Open(vm, gate).1, insideGeofence) <==> insideGeofence
  {
  }

  /** The upload button is shown. */
  predicate UploadOffered(gate: WifiGateManager.Gate, insideGeofence: bool, trip: Trip) {
    GatesReady(gate, insideGeofence) && trip.uploadStatus == Pending
  }

  // ---------------------------------------------------------------------
  // The receiver
  // ---------------------------------------------------------------------

  predicate ForTrip(ev: Received, trip: Trip) {
    ev.tripId == Some(trip.id)
  }

  /** The receiver with the completion target as a parameter. */
  function OnReceiveWith(vm: ViewModel, s: Summary, ev: Received, target: Int32): (r: (ViewModel, Summary))
    ensures !ForTrip(ev, s.trip) ==> r == (vm, s)
    ensures r.1.trip == s.trip
    ensures ev.UploadFailed? && ForTrip(ev, s.trip) ==>
      r.0 == UpdateTrip(vm, s.trip.(uploadStatus := Failed)) && !r.1.uploadTriggered && r.1.uploadedFilesCount == 0
    ensures ev.UploadComplete? && ForTrip(ev, s.trip) && 0 <= s.uploadedFilesCount && s.uploadedFilesCount + 1 < target ==>
      r == (vm, s.(uploadedFilesCount := s.uploadedFilesCount + 1))
    ensures ev.UploadComplete? && ForTrip(ev, s.trip) && 0 <= s.uploadedFilesCount && s.uploadedFilesCount + 1 == target ==>
      r == (UpdateTrip(vm, s.trip.(uploadStatus := Completed)), s.(uploadedFilesCount := 0))
  {
    if !ForTrip(ev, s.trip) then (vm, s)
    else match ev
      case UploadComplete(_, _) =>
        var count := WrapInt32(s.uploadedFilesCount as int + 1);
        if count >= target then (UpdateTrip(vm, s.trip.(uploadStatus := Completed)), s.(uploadedFilesCount := 0))
        else (vm, s.(uploadedFilesCount := count))
      case UploadFailed(_, _) =>
        (UpdateTrip(vm, s.trip.(uploadStatus := Failed)), s.(uploadTriggered := false, uploadedFilesCount := 0))
  }

  /** The receiver as written: it waits for three completions. */
  function OnReceive(vm: ViewModel, s: Summary, ev: Received): (r: (ViewModel, Summary))
    ensures 0 <= s.uploadedFilesCount < TOTAL_FILES_TO_UPLOAD ==> 0 <= r.1.uploadedFilesCount < TOTAL_FILES_TO_UPLOAD
  {
    OnReceiveWith(vm, s, ev, TOTAL_FILES_TO_UPLOAD)
  }

  /** The counter never looks at the object key. */
  lemma ReceiverIgnoresKey(vm: ViewModel, s: Summary, id: Option<TripId>, k1: string, k2: string, target: Int32)
    ensures OnReceiveWith(vm, s, UploadComplete(id, k1), target) == OnReceiveWith(vm, s, UploadComplete(id, k2), target)
  {
  }

  /** A sequence of broadcasts. */
  function RunReceive(vm: ViewModel, s: Summary, evs: seq<Received>, target: Int32): (r: (ViewModel, Summary))
    ensures r.1.trip == s.trip
    decreases |evs|
  {
    if evs == [] then (vm, s)
    else
      var (vm1, s1) := OnReceiveWith(vm, s, evs[0], target);
      RunReceive(vm1, s1, evs[1..], target)
  }

  /** One completion broadcast per key, for the given trip. */
  function Completions(id: TripId, keys: seq<string>): (r: seq<Received>)
    ensures |r| == |keys|
    ensures forall i :: 0 <= i < |r| ==> r[i] == UploadComplete(Some(id), keys[i])
  {
    seq(|keys|, i requires 0 <= i < |keys| => UploadComplete(Some(id), keys[i]))
  }

  /** Fewer completions than the counter still needs leave the trip list
      alone and only advance the counter. */
  lemma {:induction false} CompletionsBelowTarget(vm: ViewModel, s: Summary, keys: seq<string>, target: Int32)
    requires 0 <= s.uploadedFilesCount && s.uploadedFilesCount + |keys| < target
    ensures RunReceive(vm, s, Completions(s.trip.id, keys), target)
         == (vm, s.(uploadedFilesCount := s.uploadedFilesCount + |keys|))
    decreases |keys|
  {
    if keys != [] {
      var evs := Completions(s.trip.id, keys);
      var s1 := s.(uploadedFilesCount := s.uploadedFilesCount + 1);
      assert OnReceiveWith(vm, s, evs[0], target) == (vm, s1);
      assert evs[1..] == Completions(s.trip.id, keys[1..]);
      CompletionsBelowTarget(vm, s1, keys[1..], target);
    }
  }

  /** Exactly the missing number of completions marks the trip completed
      and resets the counter. */
  lemma {:induction false} CompletionsReachTarget(vm: ViewModel, s: Summary, keys: seq<string>, target: Int32)
    requires 0 <= s.uploadedFilesCount < target && s.uploadedFilesCount + |keys| == target
    ensures RunReceive(vm, s, Completions(s.trip.id, keys), target)
         == (UpdateTrip(vm, s.trip.(uploadStatus := Completed)), s.(uploadedFilesCount := 0))
    decreases |keys|
  {
    var evs := Completions(s.trip.id, keys);
    assert evs[1..] == Completions(s.trip.id, keys[1..]);
    if s.uploadedFilesCount + 1 < target {
      var s1 := s.(uploadedFilesCount := s.uploadedFilesCount + 1);
      assert OnReceiveWith(vm, s, evs[0], target) == (vm, s1);
      CompletionsReachTarget(vm, s1, keys[1..], target);
    } else {
      assert keys[1..] == [];
    }
  }

  // ---------------------------------------------------------------------
  // The upload button
  // ---------------------------------------------------------------------

  /** One upload handed to the upload service. */
  datatype UploadRequest = UploadRequest(filePath: string, s3Key: string, tripId: TripId)

  /** A file the button creates, with its contents. */
  datatype Created = Created(path: string, contents: string)

  datatype UploadOutcome = UploadOutcome(vm: ViewModel, summary: Summary, created: seq<Created>, requests: seq<UploadRequest>)

  const KEY_PREFIX: string := "trips/"

  /** The object key of a trip file: `trips/<id>/<name>`. */
  function UploadKey(id: TripId, k: FileManager.TripFile): string {
    KEY_PREFIX + FileManager.Join(IntToDecimal(id), FileManager.FileName(k))
  }

  lemma PrefixCancel(p: string, a: string, b: string)
    requires p + a == p + b
    ensures a == b
  {
    assert a == (p + a)[|p|..];
  }

  /** Keys of different trips or different files differ. */
  lemma UploadKeysDistinct(a: TripId, b: TripId, ka: FileManager.TripFile, kb: FileManager.TripFile)
    requires UploadKey(a, ka) == UploadKey(b, kb)
    ensures a == b && ka == kb
  {
    var da := IntToDecimal(a);
    var db := IntToDecimal(b);
    IntToDecimalChars(a);
    IntToDecimalChars(b);
    PrefixCancel(KEY_PREFIX, FileManager.Join(da, FileManager.FileName(ka)), FileManager.Join(db, FileManager.FileName(kb)));
    FileManager.SplitAtSlash(da, db, FileManager.FileName(ka), FileManager.FileName(kb));
    IntToDecimalInjective(a, b);
    FileManager.FileNamesDistinct(ka, kb);
  }

  function Request(ext: string, id: TripId, k: FileManager.TripFile): UploadRequest {
    UploadRequest(FileManager.TripFilePath(ext, id, k), UploadKey(id, k), id)
  }

  /** The enqueued uploads: the video when it exists, then the two CSV files. */
  function UploadRequests(ext: string, id: TripId, videoExists: bool): (r: seq<UploadRequest>)
    ensures |r| == if videoExists then 3 else 2
    ensures forall k :: 0 <= k < |r| ==> r[k].tripId == id
    ensures r[|r| - 2] == Request(ext, id, FileManager.Gps) && r[|r| - 1] == Request(ext, id, FileManager.Imu)
    ensures Request(ext, id, FileManager.Video) in r <==> videoExists
  {
    var v := Request(ext, id, FileManager.Video);
    var g := Request(ext, id, FileManager.Gps);
    var i := Request(ext, id, FileManager.Imu);
    UploadKeysOfFilesDiffer(id, FileManager.Video, FileManager.Gps);
    UploadKeysOfFilesDiffer(id, FileManager.Video, FileManager.Imu);
    assert v != g && v != i;
    if videoExists then [v, g, i] else [g, i]
  }

  /** Keys of one trip's files whose names start differently differ. */
  lemma UploadKeysOfFilesDiffer(id: TripId, ka: FileManager.TripFile, kb: FileManager.TripFile)
    requires FileManager.FileName(ka)[0] != FileManager.FileName(kb)[0]
    ensures UploadKey(id, ka) != UploadKey(id, kb)
  {
    var d := IntToDecimal(id);
    FileManager.JoinFirstCharDiffers(d, FileManager.FileName(ka), FileManager.FileName(kb));
    var ja := FileManager.Join(d, FileManager.FileName(ka));
    var jb := FileManager.Join(d, FileManager.FileName(kb));
    assert ja != jb;
    assert UploadKey(id, ka)[|KEY_PREFIX|..] == ja;
    assert UploadKey(id, kb)[|KEY_PREFIX|..] == jb;
  }

  /** The CSV files the button creates: each missing one, holding only its
      header. */
  function CreatedFiles(ext: string, id: TripId, gpsExists: bool, imuExists: bool): (r: seq<Created>)
    ensures Created(FileManager.TripFilePath(ext, id, FileManager.Gps), GPS_CSV_HEADER) in r <==> !gpsExists
    ensures Created(FileManager.TripFilePath(ext, id, FileManager.Imu), IMU_CSV_HEADER) in r <==> !imuExists
    ensures |r| == (if gpsExists then 0 else 1) + (if imuExists then 0 else 1)
  {
    var g := Created(FileManager.TripFilePath(ext, id, FileManager.Gps), GPS_CSV_HEADER);
    var i := Created(FileManager.TripFilePath(ext, id, FileManager.Imu), IMU_CSV_HEADER);
    FileManager.JoinFirstCharDiffers(FileManager.Join(ext, IntToDecimal(id)), FileManager.FileName(FileManager.Gps), FileManager.FileName(FileManager.Imu));
    assert g.path != i.path;
    (if gpsExists then [] else [g]) + (if imuExists then [] else [i])
  }

  /** The button: create the missing CSV files holding only their header,
      reset the counter, enqueue the video if it exists and the two CSV
      files always, and mark the trip uploading. */
  function StartUpload(vm: ViewModel, s: Summary, ext: string, videoExists: bool, gpsExists: bool, imuExists: bool): (r: UploadOutcome)
    requires vm.currentTrip.Some?
    ensures r.summary == s.(uploadTriggered := true, uploadedFilesCount := 0)
    ensures r.vm == UpdateTrip(vm, vm.currentTrip.value.(uploadStatus := Uploading))
    ensures r.requests == UploadRequests(ext, vm.currentTrip.value.id, videoExists)
    ensures r.created == CreatedFiles(ext, vm.currentTrip.value.id, gpsExists, imuExists)
  {
    var trip := vm.currentTrip.value;
    UploadOutcome(UpdateTrip(vm, trip.(uploadStatus := Uploading)), s.(uploadTriggered := true, uploadedFilesCount := 0),
                  CreatedFiles(ext, trip.id, gpsExists, imuExists), UploadRequests(ext, trip.id, videoExists))
  }

  /** The enqueued object keys are pairwise distinct. */
  lemma UploadRequestKeysDistinct(ext: string, id: TripId, videoExists: bool)
    ensures var qs := UploadRequests(ext, id, videoExists);
      forall i, j :: 0 <= i < j < |qs| ==> qs[i].s3Key != qs[j].s3Key
  {
    var kv := UploadKey(id, FileManager.Video);
    var kg := UploadKey(id, FileManager.Gps);
    var ki := UploadKey(id, FileManager.Imu);
    UploadKeysOfFilesDiffer(id, FileManager.Video, FileManager.Gps);
    UploadKeysOfFilesDiffer(id, FileManager.Video, FileManager.Imu);
    UploadKeysOfFilesDiffer(id, FileManager.Gps, FileManager.Imu);
    var v := Request(ext, id, FileManager.Video);
    var g := Request(ext, id, FileManager.Gps);
    var i := Request(ext, id, FileManager.Imu);
    if videoExists {
      assert UploadRequests(ext, id, videoExists) == [v, g, i];
    } else {
      assert UploadRequests(ext, id, videoExists) == [g, i];
    }
  }

  /** The button's enqueued object keys are pairwise distinct. */
  lemma StartUploadKeysDistinct(vm: ViewModel, s: Summary, ext: string, videoExists: bool, gpsExists: bool, imuExists: bool)
    requires vm.currentTrip.Some?
    ensures var qs := StartUpload(vm, s, ext, videoExists, gpsExists, imuExists).requests;
      forall i, j :: 0 <= i < j < |qs| ==> qs[i].s3Key != qs[j].s3Key
  {
    UploadRequestKeysDistinct(ext, vm.currentTrip.value.id, videoExists);
  }

  // ---------------------------------------------------------------------
  // Finding: three completions awaited, two uploads sent
  // ---------------------------------------------------------------------

  /** As written: without a video only two files are enqueued, and their two
      completions leave the trip uploading with the counter at 2. */
  lemma TwoFileUploadNeverCompletes(vm: ViewModel, s: Summary, ext: string, gpsExists: bool, imuExists: bool)
    requires vm.currentTrip.Some? && s.trip.id == vm.currentTrip.value.id
    ensures var o := StartUpload(vm, s, ext, false, gpsExists, imuExists);
      var keys := seq(|o.requests|, i requires 0 <= i < |o.requests| => o.requests[i].s3Key);
      && |o.requests| == 2
      && RunReceive(o.vm, o.summary, Completions(s.trip.id, keys), TOTAL_FILES_TO_UPLOAD)
         == (o.vm, o.summary.(uploadedFilesCount := 2))
  {
    var o := StartUpload(vm, s, ext, false, gpsExists, imuExists);
    var keys := seq(|o.requests|, i requires 0 <= i < |o.requests| => o.requests[i].s3Key);
    CompletionsBelowTarget(o.vm, o.summary, keys, TOTAL_FILES_TO_UPLOAD);
  }

  /** Corrected: the receiver waits for as many completions as files were
      enqueued. */
  function OnReceiveFixed(vm: ViewModel, s: Summary, ev: Received, enqueued: nat): (r: (ViewModel, Summary))
    requires 0 < enqueued < 0x8000_0000
    ensures !ForTrip(ev, s.trip) ==> r == (vm, s)
  {
    OnReceiveWith(vm, s, ev, enqueued as Int32)
  }

  /** Corrected: one completion per enqueued file marks the trip completed,
      with or without a video. */
  lemma FixedUploadCompletes(vm: ViewModel, s: Summary, ext: string, videoExists: bool, gpsExists: bool, imuExists: bool)
    requires vm.currentTrip.Some? && s.trip.id == vm.currentTrip.value.id
    ensures var o := StartUpload(vm, s, ext, videoExists, gpsExists, imuExists);
      var keys := seq(|o.requests|, i requires 0 <= i < |o.requests| => o.requests[i].s3Key);
      RunReceive(o.vm, o.summary, Completions(s.trip.id, keys), |o.requests| as Int32)
        == (UpdateTrip(o.vm, s.trip.(uploadStatus := Completed)), o.summary.(uploadedFilesCount := 0))
  {
    var o := StartUpload(vm, s, ext, videoExists, gpsExists, imuExists);
    var keys := seq(|o.requests|, i requires 0 <= i < |o.requests| => o.requests[i].s3Key);
    CompletionsReachTarget(o.vm, o.summary, keys, |o.requests| as Int32);
  }

  // ---------------------------------------------------------------------
  // Leaving
  // ---------------------------------------------------------------------

  /** Leaving the geofence while an upload runs stops the upload service and
      clears the flag; the second component says whether the stop was sent.
      The screen sends it with `stopService`, which destroys the service: the
      intent's `ACTION_STOP` never reaches `onStartCommand`, so the queue is
      not cleared and no transfer is paused from here. */
  function OnGeofenceChange(s: Summary, insideGeofence: bool): (r: (Summary, bool))
    ensures r.1 <==> !insideGeofence && s.uploadTriggered
    ensures !r.0.uploadTriggered || r.0 == s
    ensures r.0.(uploadTriggered := s.uploadTriggered) == s
  {
    if !insideGeofence && s.uploadTriggered then (s.(uploadTriggered := false), true) else (s, false)
  }

  /** "Return to Dashboard": stop the Wi-Fi monitor and go home. */
  function ReturnToDashboard(vm: ViewModel, gate: WifiGateManager.Gate): (r: (ViewModel, WifiGateManager.Gate))
    ensures r.0.currentView == Dashboard && r.0.currentTrip.None? && r.0.trips == vm.trips
    ensures r.1.status == gate.status && r.1.goodStartAt.None? && r.1.lastGoodAt.None?
  {
    (NavigateToView(vm, Dashboard), WifiGateManager.StopMonitoring(gate))
  }

  // ---------------------------------------------------------------------
  // Formats
  // ---------------------------------------------------------------------

  /** Whole hours and the minutes past them, seconds dropped. */
  function DurationParts(seconds: Int32): (r: (int, int))
    ensures seconds >= 0 ==> 0 <= r.1 < 60 && 0 <= r.0 && r.0 * 3600 + r.1 * 60 <= seconds < r.0 * 3600 + r.1 * 60 + 60
    ensures seconds < 0 ==> r.0 <= 0 && -60 < r.1 <= 0
  {
    (Quot(seconds, 3600), Quot(Rem(seconds, 3600), 60))
  }

  /** `formatDuration`: "Hh Mm" with whole hours, else "Mm". */
  function FormatDuration(seconds: Int32): (r: string)
    ensures EndsWith(r, "m")
    ensures DurationParts(seconds).0 > 0 ==> StartsWith(r, IntToDecimal(DurationParts(seconds).0) + "h ")
    ensures seconds < 3600 ==> r == IntToDecimal(DurationParts(seconds).1) + "m"
    ensures DurationParts(seconds).0 > 0 ==>
      r == IntToDecimal(DurationParts(seconds).0) + "h " + IntToDecimal(DurationParts(seconds).1) + "m"
  {
    var (hrs, mins) := DurationParts(seconds);
    if hrs > 0 then
      var r := IntToDecimal(hrs) + "h " + IntToDecimal(mins) + "m";
      assert r[..|IntToDecimal(hrs) + "h "|] == IntToDecimal(hrs) + "h ";
      r
    else IntToDecimal(mins) + "m"
  }

  /** From an hour on, the text reads back as the whole hours and the
      minutes past them: both decimal fields are plain digits whose values
      rebuild the duration to the minute. */
  lemma FormatDurationReadsBack(seconds: Int32)
    requires seconds >= 3600
    ensures var r := FormatDuration(seconds);
      exists hs, ms :: r == hs + "h " + ms + "m" && AllDigits(hs) && AllDigits(ms)
        && DigitsValue(hs) > 0 && DigitsValue(ms) < 60
        && DigitsValue(hs) * 3600 + DigitsValue(ms) * 60 <= seconds as int < DigitsValue(hs) * 3600 + DigitsValue(ms) * 60 + 60
  {
    var (h, m) := DurationParts(seconds);
    assert h > 0;
    DecimalRoundTrip(h);
    DecimalRoundTrip(m);
    var hs, ms := NatToDecimal(h), NatToDecimal(m);
    assert FormatDuration(seconds) == hs + "h " + ms + "m";
  }

  /** `formatMs`: whole seconds followed by "s". */
  function FormatMs(ms: Int64): (r: string)
    ensures EndsWith(r, "s")
    ensures ms >= 0 ==> AllDigits(r[..|r| - 1]) && DigitsValue(r[..|r| - 1]) * 1000 <= ms < DigitsValue(r[..|r| - 1]) * 1000 + 1000
  {
    var secs := Quot(ms, 1000);
    var r := IntToDecimal(secs) + "s";
    assert r[..|r| - 1] == IntToDecimal(secs);
    WholeSeconds(ms);
    r
  }

  lemma WholeSeconds(ms: Int64)
    ensures ms >= 0 ==>
      (AllDigits(IntToDecimal(Quot(ms, 1000))) &&
       DigitsValue(IntToDecimal(Quot(ms, 1000))) * 1000 <= ms < DigitsValue(IntToDecimal(Quot(ms, 1000))) * 1000 + 1000)
  {
    if ms >= 0 {
      QuotRemNonNegative(ms, 1000);
      DecimalRoundTrip(ms / 1000);
    }
  }
}
