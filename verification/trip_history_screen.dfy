/** The trip history screen: the totals over the trip list, the "uploaded"
    figure, the status badge, and which parts of the screen show. */
module TripHistoryScreen {
  import opened Common
  import opened Text
  import opened Models
  import FileManager

  /** The exact sum of the trips' durations. */
  function ExactDuration(trips: seq<Trip>): int {
    if trips == [] then 0 else trips[0].duration as int + ExactDuration(trips[1..])
  }

  /** `sumOf { it.duration }`: an `Int` running total from the front,
      wrapping on overflow at each step. */
  function SumDurations(acc: Int32, trips: seq<Trip>): Int32
    decreases |trips|
  {
    if trips == [] then acc else SumDurations(WrapInt32(acc as int + trips[0].duration as int), trips[1..])
  }

  function TotalDuration(trips: seq<Trip>): Int32 {
    SumDurations(0, trips)
  }

  lemma {:induction false} SumDurationsWraps(acc: Int32, trips: seq<Trip>)
    ensures SumDurations(acc, trips) == WrapInt32(acc as int + ExactDuration(trips))
    decreases |trips|
  {
    if trips != [] {
      var d := trips[0].duration as int;
      SumDurationsWraps(WrapInt32(acc as int + d), trips[1..]);
      WrapInt32Add(acc as int + d, ExactDuration(trips[1..]));
    }
  }

  /** The total is the sum of the durations, reduced to an `Int`; with no
      overflow it is the sum itself. */
  lemma TotalDurationIsSum(trips: seq<Trip>)
    ensures TotalDuration(trips) == WrapInt32(ExactDuration(trips))
    ensures -0x8000_0000 <= ExactDuration(trips) < 0x8000_0000 ==> TotalDuration(trips) == ExactDuration(trips)
  {
    SumDurationsWraps(0, trips);
  }

  /** `uploadedTrips`: the completed trips. */
  function UploadedTrips(trips: seq<Trip>): (k: nat)
    ensures k <= |trips|
  {
    CountStatus(trips, IsCompleted)
  }

  /** The "Uploaded" card: "k/n". */
  function UploadedLabel(trips: seq<Trip>): string {
    NatToDecimal(UploadedTrips(trips)) + "/" + NatToDecimal(|trips|)
  }

  /** The label splits at its one '/' into the uploaded count and the list
      length, and the first never exceeds the second. */
  lemma UploadedLabelReads(trips: seq<Trip>, a: string, b: string)
    requires '/' !in a && UploadedLabel(trips) == a + "/" + b
    ensures AllDigits(a) && AllDigits(b)
    ensures DigitsValue(a) == UploadedTrips(trips) <= |trips| == DigitsValue(b)
  {
    var ka := NatToDecimal(UploadedTrips(trips));
    var kb := NatToDecimal(|trips|);
    assert forall i :: 0 <= i < |ka| ==> ka[i] != '/';
    FileManager.SplitAtSlash(ka, a, kb, b);
    DecimalRoundTrip(UploadedTrips(trips));
    DecimalRoundTrip(|trips|);
  }

  /** The summary row shows for a non-empty list; otherwise the empty
      message does. */
  predicate SummaryShown(trips: seq<Trip>) { |trips| > 0 }

  predicate EmptyMessageShown(trips: seq<Trip>) { trips == [] }

  /** The badge text of each status. */
  function BadgeLabel(st: UploadStatus): string {
    match st
    case Completed => "Uploaded"
    case Uploading => "Uploading"
    case Failed => "Failed"
    case Pending => "Pending"
  }

  /** The four badges read differently. */
  lemma BadgeLabelsDistinct(a: UploadStatus, b: UploadStatus)
    requires BadgeLabel(a) == BadgeLabel(b)
    ensures a == b
  {
  }

  /** The progress figure of a card, shown only while uploading. */
  function ProgressLabel(t: Trip): (r: Option<string>)
    ensures r.Some? <==> t.uploadStatus == Uploading
    ensures r.Some? ==> EndsWith(r.value, "%")
  {
    if t.uploadStatus == Uploading then
      var s := IntToDecimal(t.uploadProgress) + "%";
      assert s[|s| - 1..] == "%";
      Some(s)
    else None
  }
}
