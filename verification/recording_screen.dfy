/** The recording screen: the single button that first starts and then
    stops a recording, the ESP32 warning banner, and the elapsed-time clock. */
module RecordingScreen {
  import opened Common
  import opened Text
  import opened Models
  import AppViewModel
  import RecordingService
  import BleService

  /** The command the button sends to the recording service. */
  datatype ServiceAction = SendStart | SendStop

  /** The screen draws nothing without a current trip. */
  predicate Shown(vm: AppViewModel.ViewModel) {
    vm.currentTrip.Some?
  }

  /** The button: in preview it starts the service and leaves preview;
      while recording it stops the service, returns to preview and
      completes the journey. */
  function OnRecordButton(vm: AppViewModel.ViewModel, distanceKm: Float32): (r: (AppViewModel.ViewModel, ServiceAction))
    ensures vm.isPreviewMode ==> r.1 == SendStart && r.0 == vm.(isPreviewMode := false)
    ensures !vm.isPreviewMode ==>
      && r.1 == SendStop
      && r.0.isPreviewMode
      && r.0 == AppViewModel.CompleteJourney(vm.(isPreviewMode := true), distanceKm)
  {
    if vm.isPreviewMode then (AppViewModel.SetIsPreviewMode(vm, false), SendStart)
    else (AppViewModel.CompleteJourney(AppViewModel.SetIsPreviewMode(vm, true), distanceKm), SendStop)
  }

  /** Two presses from preview: the service is started and then stopped,
      the screen is back in preview, the summary opens, and the trip list
      has one more pending upload. */
  lemma StartThenStop(vm: AppViewModel.ViewModel, distanceKm: Float32)
    requires Shown(vm) && vm.isPreviewMode
    ensures var (vm1, a1) := OnRecordButton(vm, distanceKm);
      var (vm2, a2) := OnRecordButton(vm1, distanceKm);
      && a1 == SendStart && a2 == SendStop
      && vm2.isPreviewMode
      && vm2.currentView == TripSummary
      && AppViewModel.PendingUploads(vm2) == AppViewModel.PendingUploads(vm) + 1
      && vm2.trips[1..] == vm.trips
  {
    var vm1 := OnRecordButton(vm, distanceKm).0;
    AppViewModel.CompleteJourneyAddsPending(vm1.(isPreviewMode := true), distanceKm);
  }

  /** The ESP32 warning banner shows while the bluetooth flag is down. */
  predicate Esp32BannerShown(vm: AppViewModel.ViewModel) {
    !vm.sensorStatus.bluetooth
  }

  /** After a link change the banner shows exactly when the link is not
      connected. */
  lemma BannerFollowsLink(vm: AppViewModel.ViewModel, st: BleService.ConnState, camera: bool, gps: bool, imu: bool, storage: Int32)
    ensures Esp32BannerShown(AppViewModel.OnBleState(vm, st, camera, gps, imu, storage))
      <==> st != BleService.Connected
  {
  }

  /** The hours, minutes and seconds `formatTime` prints for a count of
      seconds, with `Int` division. */
  function ClockParts(seconds: Int32): (int, int, int) {
    (Quot(seconds, 3600), Quot(Rem(seconds, 3600), 60), Rem(seconds, 60))
  }

  /** For a non-negative count the parts are a clock reading of it. */
  lemma ClockPartsDecompose(seconds: Int32)
    requires seconds >= 0
    ensures var (h, m, s) := ClockParts(seconds);
      && 0 <= h && 0 <= m < 60 && 0 <= s < 60
      && h * 3600 + m * 60 + s == seconds as int
  {
    var n := seconds as int;
    QuotRemNonNegative(n, 3600);
    QuotRemNonNegative(n, 60);
    QuotRemNonNegative(n % 3600, 60);
    ClockArithmetic(n);
  }

  lemma ClockArithmetic(n: nat)
    ensures (n / 3600) * 3600 + ((n % 3600) / 60) * 60 + n % 60 == n
    ensures 0 <= (n % 3600) / 60 < 60
  {
    var q := n / 3600;
    var r := n % 3600;
    assert n == q * 3600 + r;
    assert r == (r / 60) * 60 + r % 60;
    assert r % 60 == n % 60 by {
      assert n == (q * 60 + r / 60) * 60 + r % 60;
    }
  }

  /** `formatTime(seconds)`: "%02d:%02d:%02d". */
  function FormatTime(seconds: Int32): (r: string)
    ensures |r| >= 8
    ensures seconds >= 0 ==> r == Pad2(ClockParts(seconds).0) + ":" + Pad2(ClockParts(seconds).1) + ":" + Pad2(ClockParts(seconds).2)
  {
    var (h, m, s) := ClockParts(seconds);
    Pad2(h) + ":" + Pad2(m) + ":" + Pad2(s)
  }

  /** A non-negative count prints as three digit fields, the last two
      under 60, whose values rebuild the count. */
  lemma FormatTimeReadsBack(seconds: Int32)
    requires seconds >= 0
    ensures var r := FormatTime(seconds);
      exists hh, mm, ss :: r == hh + ":" + mm + ":" + ss
        && AllDigits(hh) && AllDigits(mm) && AllDigits(ss) && |mm| == 2 && |ss| == 2
        && DigitsValue(mm) < 60 && DigitsValue(ss) < 60
        && DigitsValue(hh) * 3600 + DigitsValue(mm) * 60 + DigitsValue(ss) == seconds as int
  {
    ClockPartsDecompose(seconds);
    var (h, m, s) := ClockParts(seconds);
    var hh, mm, ss := Pad2(h), Pad2(m), Pad2(s);
    assert FormatTime(seconds) == hh + ":" + mm + ":" + ss;
  }

  /** The screen's clock, fed the whole seconds of the view model's elapsed
      time, reads the same as the service's notification clock. */
  lemma ClocksAgree(ms: Int64)
    requires 0 <= ms < 0x8000_0000 * 1000
    ensures FormatTime(AppViewModel.ElapsedSeconds(ms)) == RecordingService.FormatTime(ms)
  {
    var sec := AppViewModel.ElapsedSeconds(ms);
    QuotRemNonNegative(ms as int, 1000);
    assert sec as int == ms as int / 1000;
    ClockPartsDecompose(sec);
    var (h, m, s) := ClockParts(sec);
    var (h2, m2, s2) := RecordingService.ClockParts(ms);
    ClockUnique(h, m, s, h2, m2, s2, sec as int, ms as int);
  }

  /** A clock reading of a millisecond count and one of its whole seconds
      agree field by field. */
  lemma ClockUnique(h: int, m: int, s: int, h2: int, m2: int, s2: int, sec: int, ms: int)
    requires 0 <= h && 0 <= m < 60 && 0 <= s < 60 && h * 3600 + m * 60 + s == sec
    requires 0 <= h2 && 0 <= m2 < 60 && 0 <= s2 < 60
    requires h2 * 3_600_000 + m2 * 60_000 + s2 * 1000 <= ms < h2 * 3_600_000 + m2 * 60_000 + s2 * 1000 + 1000
    requires sec * 1000 <= ms < sec * 1000 + 1000
    ensures h == h2 && m == m2 && s == s2
  {
    var t2 := h2 * 3600 + m2 * 60 + s2;
    assert t2 * 1000 <= ms < t2 * 1000 + 1000;
    assert t2 == sec;
    SecondsUnique(h, m, s, h2, m2, s2);
  }

  lemma SecondsUnique(h: int, m: int, s: int, h2: int, m2: int, s2: int)
    requires 0 <= h && 0 <= m < 60 && 0 <= s < 60
    requires 0 <= h2 && 0 <= m2 < 60 && 0 <= s2 < 60
    requires h * 3600 + m * 60 + s == h2 * 3600 + m2 * 60 + s2
    ensures h == h2 && m == m2 && s == s2
  {
    var n := h * 3600 + m * 60 + s;
    assert n / 3600 == h && n / 3600 == h2;
    assert (m * 60 + s) / 60 == m && (m2 * 60 + s2) / 60 == m2;
  }
}
