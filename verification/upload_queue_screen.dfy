/** The upload queue screen: the trip list split by upload status, the
    numbered pending queue, the retry of a failed trip, the short list of
    recent completions, and when the Wi-Fi alert and the empty state show. */
module UploadQueueScreen {
  import opened Common
  import opened Models
  import AppViewModel

  /** The recently-completed list shows at most this many trips. */
  const RECENT_COMPLETED_LIMIT: nat := 5

  /** The four lists the screen shows. */
  datatype Sections = Sections(pending: seq<Trip>, uploading: seq<Trip>, completed: seq<Trip>, failed: seq<Trip>)

  function Partition(trips: seq<Trip>): (r: Sections)
    ensures forall t :: t in r.pending <==> t in trips && t.uploadStatus == Pending
    ensures forall t :: t in r.uploading <==> t in trips && t.uploadStatus == Uploading
    ensures forall t :: t in r.completed <==> t in trips && t.uploadStatus == Completed
    ensures forall t :: t in r.failed <==> t in trips && t.uploadStatus == Failed
  {
    Sections(FilterStatus(trips, IsPending), FilterStatus(trips, IsUploading),
             FilterStatus(trips, IsCompleted), FilterStatus(trips, IsFailed))
  }

  /** The four counts add up to the list's length. */
  lemma {:induction false} FourCounts(trips: seq<Trip>)
    ensures CountStatus(trips, IsPending) + CountStatus(trips, IsUploading)
          + CountStatus(trips, IsCompleted) + CountStatus(trips, IsFailed) == |trips|
  {
    if trips != [] {
      FourCounts(trips[1..]);
    }
  }

  /** Every trip lands in exactly one section, the section sizes add up to
      the list's length, and each section keeps the list's order. */
  lemma PartitionIsExact(trips: seq<Trip>)
    ensures var r := Partition(trips);
      |r.pending| + |r.uploading| + |r.completed| + |r.failed| == |trips|
    ensures var r := Partition(trips);
      Subsequence(r.pending, trips) && Subsequence(r.uploading, trips)
      && Subsequence(r.completed, trips) && Subsequence(r.failed, trips)
  {
    FilterCount(trips, IsPending);
    FilterCount(trips, IsUploading);
    FilterCount(trips, IsCompleted);
    FilterCount(trips, IsFailed);
    FourCounts(trips);
    FilterIsSubsequence(trips, IsPending);
    FilterIsSubsequence(trips, IsUploading);
    FilterIsSubsequence(trips, IsCompleted);
    FilterIsSubsequence(trips, IsFailed);
  }

  /** The pending cards with their queue numbers. */
  function QueuePositions(pending: seq<Trip>): (r: seq<(Trip, nat)>)
    ensures |r| == |pending|
    ensures forall i :: 0 <= i < |r| ==> r[i].0 == pending[i] && r[i].1 == i + 1
  {
    seq(|pending|, i requires 0 <= i < |pending| => (pending[i], i + 1))
  }

  /** The queue numbers rise strictly from 1 and stay within 1 to n, so
      each of 1 to n is used once. */
  lemma QueueNumbersOneToN(pending: seq<Trip>)
    ensures var r := QueuePositions(pending);
      && (|r| > 0 ==> r[0].1 == 1 && r[|r| - 1].1 == |pending|)
      && (forall i :: 0 <= i < |r| ==> 1 <= r[i].1 <= |pending|)
      && (forall i, j :: 0 <= i < j < |r| ==> r[i].1 < r[j].1)
  {
  }

  /** The retry button of a failed card. */
  function Retry(t: Trip): (r: Trip)
    ensures r.uploadStatus == Uploading && r.uploadProgress == 0
    ensures r.(uploadStatus := t.uploadStatus, uploadProgress := t.uploadProgress) == t
  {
    t.(uploadStatus := Uploading, uploadProgress := 0)
  }

  /** The number of trips with the given id whose status satisfies `p`. */
  function CountWithId(trips: seq<Trip>, id: TripId, p: UploadStatus -> bool): (n: nat)
    ensures n <= |trips|
  {
    if trips == [] then 0
    else (if trips[0].id == id && p(trips[0].uploadStatus) then 1 else 0) + CountWithId(trips[1..], id, p)
  }

  predicate AnyStatus(st: UploadStatus) { true }

  /** How replacing by id moves the status counts: the replaced entries
      leave their counts and join the new trip's. */
  lemma {:induction false} CountAfterReplace(trips: seq<Trip>, u: Trip, p: UploadStatus -> bool)
    ensures CountStatus(AppViewModel.ReplaceById(trips, u), p)
         == CountStatus(trips, p) - CountWithId(trips, u.id, p)
            + (if p(u.uploadStatus) then CountWithId(trips, u.id, AnyStatus) else 0)
  {
    if trips != [] {
      var r := AppViewModel.ReplaceById(trips, u);
      assert r[1..] == AppViewModel.ReplaceById(trips[1..], u);
      CountAfterReplace(trips[1..], u, p);
    }
  }

  /** A trip in the list is counted under its own id and status. */
  lemma {:induction false} CountWithIdMember(trips: seq<Trip>, t: Trip, p: UploadStatus -> bool)
    requires t in trips && p(t.uploadStatus)
    ensures CountWithId(trips, t.id, p) >= 1
  {
    if trips[0] != t {
      CountWithIdMember(trips[1..], t, p);
    }
  }

  /** Narrowing the status test narrows the count. */
  lemma {:induction false} CountWithIdBelowAll(trips: seq<Trip>, id: TripId, p: UploadStatus -> bool)
    ensures CountWithId(trips, id, p) <= CountWithId(trips, id, AnyStatus)
  {
    if trips != [] {
      CountWithIdBelowAll(trips[1..], id, p);
    }
  }

  /** Retrying a failed trip whose id occurs once moves it from the failed
      section to the uploading section. */
  lemma RetryMovesTrip(vm: AppViewModel.ViewModel, t: Trip)
    requires t in vm.trips && t.uploadStatus == Failed
    requires CountWithId(vm.trips, t.id, AnyStatus) == 1
    ensures var trips := AppViewModel.UpdateTrip(vm, Retry(t)).trips;
      && CountStatus(trips, IsFailed) == CountStatus(vm.trips, IsFailed) - 1
      && CountStatus(trips, IsUploading) == CountStatus(vm.trips, IsUploading) + 1
  {
    CountAfterReplace(vm.trips, Retry(t), IsFailed);
    CountAfterReplace(vm.trips, Retry(t), IsUploading);
    CountWithIdMember(vm.trips, t, IsFailed);
    CountWithIdBelowAll(vm.trips, t.id, IsFailed);
    CountWithIdFailedOnly(vm.trips, t);
  }

  /** A trip whose id occurs once is the only entry with that id, so no
      entry with its id is uploading when it has failed. */
  lemma {:induction false} CountWithIdFailedOnly(trips: seq<Trip>, t: Trip)
    requires t in trips && t.uploadStatus == Failed
    requires CountWithId(trips, t.id, AnyStatus) == 1
    ensures CountWithId(trips, t.id, IsUploading) == 0
  {
    if trips[0] == t {
      CountWithIdNone(trips[1..], t.id);
    } else if trips[0].id == t.id {
      CountWithIdMember(trips[1..], t, AnyStatus);
    } else {
      CountWithIdFailedOnly(trips[1..], t);
    }
  }

  lemma {:induction false} CountWithIdNone(trips: seq<Trip>, id: TripId)
    requires CountWithId(trips, id, AnyStatus) == 0
    ensures CountWithId(trips, id, IsUploading) == 0
  {
    if trips != [] {
      CountWithIdNone(trips[1..], id);
    }
  }

  /** `completedTrips.take(5)`. */
  function RecentlyCompleted(trips: seq<Trip>): (r: seq<Trip>)
    ensures |r| <= RECENT_COMPLETED_LIMIT
    ensures var c := Partition(trips).completed;
      |r| == (if |c| < RECENT_COMPLETED_LIMIT then |c| else RECENT_COMPLETED_LIMIT)
      && r == c[..|r|]
  {
    var c := Partition(trips).completed;
    if |c| < RECENT_COMPLETED_LIMIT then c else c[..RECENT_COMPLETED_LIMIT]
  }

  /** The Wi-Fi alert: no Wi-Fi while something waits to upload. */
  predicate WifiAlertShown(isWifiConnected: bool, trips: seq<Trip>) {
    !isWifiConnected && |Partition(trips).pending| > 0
  }

  lemma WifiAlertMeaning(isWifiConnected: bool, trips: seq<Trip>)
    ensures WifiAlertShown(isWifiConnected, trips)
      <==> !isWifiConnected && exists i :: 0 <= i < |trips| && trips[i].uploadStatus == Pending
  {
    var p := Partition(trips).pending;
    if p != [] {
      assert p[0] in trips;
    }
    if exists i :: 0 <= i < |trips| && trips[i].uploadStatus == Pending {
      var i :| 0 <= i < |trips| && trips[i].uploadStatus == Pending;
      assert trips[i] in p;
    }
  }

  /** The empty state shows for an empty list, and then no section does. */
  predicate EmptyStateShown(trips: seq<Trip>) {
    trips == []
  }

  lemma EmptyStateHidesSections(trips: seq<Trip>)
    requires EmptyStateShown(trips)
    ensures var r := Partition(trips);
      r.pending == [] && r.uploading == [] && r.completed == [] && r.failed == []
  {
  }
}
