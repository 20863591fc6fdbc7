/** The app's shared records: a recorded trip with its upload status, the
    screens of the app, and the sensor availability flags. */
module Models {
  import opened Common

  /** A trip id: a Kotlin `Long`. */
  type TripId = Int64

  datatype UploadStatus = Pending | Uploading | Completed | Failed

  predicate IsPending(st: UploadStatus) { st == Pending }
  predicate IsUploading(st: UploadStatus) { st == Uploading }
  predicate IsCompleted(st: UploadStatus) { st == Completed }
  predicate IsFailed(st: UploadStatus) { st == Failed }

  /** A recorded trip. `distance` keeps the bit pattern of the `Float`
      kilometre count; durations are whole seconds. */
  datatype Trip = Trip(
    id: TripId,
    date: string,
    time: string,
    duration: Int32,
    distance: Float32,
    routeId: string,
    vehicleId: string,
    coverage: Int32,
    uploadStatus: UploadStatus,
    uploadProgress: Int32)

  datatype AppView = Dashboard | Recording | TripSummary | Health | History | UploadQueue

  /** Where the trip-summary screen was opened from. */
  datatype TripSummarySource = FromRecording | FromQueue

  /** Sensor availability as the dashboard shows it; `bluetooth` is the flag
      the view model sets from the link state. */
  datatype SensorStatus = SensorStatus(camera: bool, gps: bool, imu: bool, bluetooth: bool, storage: Int32)

  const DEFAULT_SENSOR_STATUS: SensorStatus := SensorStatus(false, false, false, false, 0)

  /** The number of trips in `trips` whose status satisfies `p`, counted
      front to back. */
  function CountStatus(trips: seq<Trip>, p: UploadStatus -> bool): (n: nat)
    ensures n <= |trips|
  {
    if trips == [] then 0
    else (if p(trips[0].uploadStatus) then 1 else 0) + CountStatus(trips[1..], p)
  }

  /** The trips in `trips` whose status satisfies `p`, in list order. */
  function FilterStatus(trips: seq<Trip>, p: UploadStatus -> bool): (r: seq<Trip>)
    ensures |r| <= |trips|
    ensures forall i :: 0 <= i < |r| ==> p(r[i].uploadStatus) && r[i] in trips
    ensures forall t :: t in trips && p(t.uploadStatus) ==> t in r
  {
    if trips == [] then []
    else (if p(trips[0].uploadStatus) then [trips[0]] else []) + FilterStatus(trips[1..], p)
  }

  /** The count of a filter is its length. */
  lemma {:induction false} FilterCount(trips: seq<Trip>, p: UploadStatus -> bool)
    ensures |FilterStatus(trips, p)| == CountStatus(trips, p)
  {
    if trips != [] {
      FilterCount(trips[1..], p);
    }
  }

  /** A filter keeps the list's order. */
  lemma {:induction false} FilterIsSubsequence(trips: seq<Trip>, p: UploadStatus -> bool)
    ensures Subsequence(FilterStatus(trips, p), trips)
  {
    if trips != [] {
      FilterIsSubsequence(trips[1..], p);
      var r := FilterStatus(trips, p);
      if p(trips[0].uploadStatus) {
        assert r[1..] == FilterStatus(trips[1..], p);
      } else {
        assert r == FilterStatus(trips[1..], p);
        assert r != [] ==> Subsequence(r, trips[1..]);
      }
    }
  }

  /** A status and its complement split the list's count. */
  lemma {:induction false} CountComplement(trips: seq<Trip>, p: UploadStatus -> bool, q: UploadStatus -> bool)
    requires forall st :: q(st) == !p(st)
    ensures CountStatus(trips, p) + CountStatus(trips, q) == |trips|
  {
    if trips != [] {
      CountComplement(trips[1..], p, q);
    }
  }
}
