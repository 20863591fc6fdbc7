/** The recording service: the start and stop guards, the once-a-second
    timer that publishes the recording status, the command handler, and the
    notification's clock format. The timer is a coroutine; each of its
    iterations is a `Tick` event naming the job that runs it. */
module RecordingService {
  import opened Common
  import opened Text
  import FileManager

  const ACTION_START_RECORDING: string := "action_start_recording"
  const ACTION_STOP_RECORDING: string := "action_stop_recording"

  /** The published status. The distance (a `Double`) is not modelled. */
  datatype RecordingStatus = RecordingStatus(isRecording: bool, tripId: string, elapsedTimeMs: Int64)

  const DEFAULT_STATUS: RecordingStatus := RecordingStatus(false, "", 0)

  /** The service: the published status, the timer jobs still running (each
      with the trip id its loop captured), the job held in `timerJob`, the
      start time all loops read, and the trip folder. */
  datatype Service = Service(
    externalDir: string,
    status: RecordingStatus,
    running: map<nat, string>,
    timerJob: Option<nat>,
    nextJob: nat,
    startTimeMs: Int64,
    tripDirectory: Option<string>)

  function Create(externalDir: string): (s: Service)
    ensures !s.status.isRecording && s.running == map[] && s.timerJob.None? && s.tripDirectory.None?
  {
    Service(externalDir, DEFAULT_STATUS, map[], None, 0, 0, None)
  }

  /** `startRecording`: ignored while the status says recording; otherwise
      the trip folder `<externalFilesDir>/<tripId>` is made, the start time
      taken, and a new timer job launched and kept in `timerJob`. */
  function StartRecording(s: Service, tripId: string, now: Int64): (r: Service)
    ensures s.status.isRecording ==> r == s
    ensures !s.status.isRecording ==>
      && r.tripDirectory == Some(FileManager.Join(s.externalDir, tripId))
      && r.startTimeMs == now
      && r.timerJob == Some(s.nextJob)
      && r.running == s.running[s.nextJob := tripId]
      && r.status == s.status
  {
    if s.status.isRecording then s
    else
      s.(tripDirectory := Some(FileManager.Join(s.externalDir, tripId)), startTimeMs := now,
         running := s.running[s.nextJob := tripId], timerJob := Some(s.nextJob), nextJob := s.nextJob + 1)
  }

  /** One iteration of a running timer loop: recording, under the loop's
      trip id, for the time since the (shared) start time. A cancelled job
      does nothing. */
  function Tick(s: Service, job: nat, now: Int64): (r: Service)
    ensures job !in s.running ==> r == s
    ensures job in s.running ==>
      r.status == RecordingStatus(true, s.running[job], WrapInt64(now as int - s.startTimeMs as int))
    ensures r.(status := s.status) == s
  {
    if job in s.running then
      s.(status := RecordingStatus(true, s.running[job], WrapInt64(now as int - s.startTimeMs as int)))
    else s
  }

  /** `stopRecording`: nothing (and no folder) unless the status says
      recording; otherwise the job in `timerJob` is cancelled, the status
      keeps its fields but stops recording, and the trip folder is returned. */
  function StopRecording(s: Service): (r: (Service, Option<string>))
    ensures !s.status.isRecording ==> r == (s, None)
    ensures s.status.isRecording ==>
      && r.1 == s.tripDirectory
      && r.0.status == s.status.(isRecording := false)
      && r.0.timerJob.None?
      && r.0.running == (if s.timerJob.Some? then s.running - {s.timerJob.value} else s.running)
  {
    if !s.status.isRecording then (s, None)
    else
      var running := if s.timerJob.Some? then s.running - {s.timerJob.value} else s.running;
      (s.(running := running, timerJob := None, status := s.status.(isRecording := false)), s.tripDirectory)
  }

  /** The trip id extra, or the one made from the clock. */
  datatype Command = Command(action: Option<string>, tripIdExtra: Option<string>)

  datatype StartResult = StartSticky

  /** `onStartCommand`. */
  function OnStartCommand(s: Service, intent: Option<Command>, generatedId: string, now: Int64): (r: (Service, StartResult))
    ensures r.1 == StartSticky
    ensures intent.Some? && intent.value.action == Some(ACTION_START_RECORDING) ==>
      r.0 == StartRecording(s, intent.value.tripIdExtra.GetOr(generatedId), now)
    ensures intent.Some? && intent.value.action == Some(ACTION_STOP_RECORDING) ==> r.0 == StopRecording(s).0
    ensures intent.None? || (intent.value.action != Some(ACTION_START_RECORDING) && intent.value.action != Some(ACTION_STOP_RECORDING))
      ==> r.0 == s
  {
    if intent.None? then (s, StartSticky)
    else if intent.value.action == Some(ACTION_START_RECORDING) then
      (StartRecording(s, intent.value.tripIdExtra.GetOr(generatedId), now), StartSticky)
    else if intent.value.action == Some(ACTION_STOP_RECORDING) then (StopRecording(s).0, StartSticky)
    else (s, StartSticky)
  }

  /** The recording flag is raised only by a tick of a running job. */
  lemma OnlyTicksRaiseRecording(s: Service, tripId: string, now: Int64)
    requires !s.status.isRecording
    ensures !StartRecording(s, tripId, now).status.isRecording
    ensures !StopRecording(s).0.status.isRecording
  {
  }

  /** Start, a tick, then stop: the folder made at the start comes back and
      the recording flag is down. */
  lemma StartTickStop(s: Service, tripId: string, t0: Int64, t1: Int64)
    requires !s.status.isRecording
    ensures var s1 := Tick(StartRecording(s, tripId, t0), s.nextJob, t1);
      && s1.status == RecordingStatus(true, tripId, WrapInt64(t1 as int - t0 as int))
      && StopRecording(s1).1 == Some(FileManager.Join(s.externalDir, tripId))
      && !StopRecording(s1).0.status.isRecording
      && s.nextJob !in StopRecording(s1).0.running
  {
  }

  // ---------------------------------------------------------------------
  // Finding: a second start before the first tick leaks a timer
  // ---------------------------------------------------------------------

  /** As written: two starts before the first tick launch two loops; the
      stop cancels only the second, and the first raises the recording flag
      again after the stop. */
  lemma LeakedTimerRevivesRecording(dir: string, a: string, b: string, t0: Int64, t1: Int64, t2: Int64, t3: Int64)
    ensures var s0 := Create(dir);
      var s1 := StartRecording(StartRecording(s0, a, t0), b, t1);
      var s2 := Tick(s1, 1, t2);
      var s3 := StopRecording(s2).0;
      && 0 in s3.running
      && !s3.status.isRecording
      && Tick(s3, 0, t3).status.isRecording
      && Tick(s3, 0, t3).status.tripId == a
  {
  }

  /** Corrected: the guard also refuses while a timer job is held, so at
      most one loop ever runs. */
  function StartRecordingFixed(s: Service, tripId: string, now: Int64): (r: Service)
    ensures s.status.isRecording || s.timerJob.Some? ==> r == s
    ensures !(s.status.isRecording || s.timerJob.Some?) ==> r == StartRecording(s, tripId, now)
  {
    if s.status.isRecording || s.timerJob.Some? then s else StartRecording(s, tripId, now)
  }

  /** The corrected service's invariant: the running loops are the held job
      and no other, and job numbers are fresh. */
  predicate OneTimer(s: Service) {
    && (s.timerJob.None? ==> s.running == map[])
    && (s.timerJob.Some? ==> s.running.Keys == {s.timerJob.value} && s.timerJob.value < s.nextJob)
    && (s.status.isRecording ==> s.timerJob.Some?)
  }

  datatype Event = Start(tripId: string, now: Int64) | Stop | TimerTick(job: nat, now: Int64)

  function StepFixed(s: Service, e: Event): (r: Service) {
    match e
    case Start(id, now) => StartRecordingFixed(s, id, now)
    case Stop => StopRecording(s).0
    case TimerTick(job, now) => Tick(s, job, now)
  }

  /** Every step keeps one timer at most, and after a stop no tick raises the
      recording flag. */
  lemma StepFixedKeepsOneTimer(s: Service, e: Event)
    requires OneTimer(s)
    ensures OneTimer(StepFixed(s, e))
    ensures e.Stop? && s.status.isRecording ==>
      forall job, now :: !Tick(StepFixed(s, e), job, now).status.isRecording
  {
  }

  function RunFixed(s: Service, es: seq<Event>): (r: Service)
    decreases |es|
  {
    if es == [] then s else RunFixed(StepFixed(s, es[0]), es[1..])
  }

  lemma {:induction false} RunFixedKeepsOneTimer(s: Service, es: seq<Event>)
    requires OneTimer(s)
    ensures OneTimer(RunFixed(s, es))
    decreases |es|
  {
    if es != [] {
      StepFixedKeepsOneTimer(s, es[0]);
      RunFixedKeepsOneTimer(StepFixed(s, es[0]), es[1..]);
    }
  }

  // ---------------------------------------------------------------------
  // The notification clock
  // ---------------------------------------------------------------------

  /** Hours, minutes and seconds of a millisecond count; hours uncapped. */
  function ClockParts(ms: Int64): (r: (int, int, int))
    ensures ms >= 0 ==>
      && 0 <= r.1 < 60 && 0 <= r.2 < 60 && 0 <= r.0
      && r.0 * 3_600_000 + r.1 * 60_000 + r.2 * 1000 <= ms < r.0 * 3_600_000 + r.1 * 60_000 + r.2 * 1000 + 1000
  {
    QuotRemNonNegativeFacts(ms);
    (Quot(ms, 1000 * 60 * 60), Rem(Quot(ms, 1000 * 60), 60), Rem(Quot(ms, 1000), 60))
  }

  lemma QuotRemNonNegativeFacts(ms: Int64)
    ensures ms >= 0 ==>
      && Quot(ms, 3_600_000) == ms / 3_600_000
      && Rem(Quot(ms, 60_000), 60) == (ms / 60_000) % 60
      && Rem(Quot(ms, 1000), 60) == (ms / 1000) % 60
      && 0 <= (ms / 60_000) % 60 < 60 && 0 <= (ms / 1000) % 60 < 60
      && var t := (ms / 3_600_000) * 3_600_000 + ((ms / 60_000) % 60) * 60_000 + ((ms / 1000) % 60) * 1000;
         t <= ms < t + 1000
  {
    if ms >= 0 {
      QuotRemNonNegative(ms, 3_600_000);
      QuotRemNonNegative(ms, 60_000);
      QuotRemNonNegative(ms, 1000);
      QuotRemNonNegative(ms / 60_000, 60);
      QuotRemNonNegative(ms / 1000, 60);
      MillisArithmetic(ms as int);
    }
  }

  lemma MillisArithmetic(n: nat)
    ensures var t := (n / 3_600_000) * 3_600_000 + ((n / 60_000) % 60) * 60_000 + ((n / 1000) % 60) * 1000;
      t <= n < t + 1000
  {
    var sec := n / 1000;
    MinutesOfMillis(n);
    HoursOfMillis(n);
    var q := sec / 3600;
    var r := sec % 3600;
    assert (sec / 60) % 60 == r / 60 by {
      assert sec == q * 3600 + r;
      assert sec / 60 == q * 60 + r / 60;
    }
    assert r % 60 == sec % 60 by {
      assert sec == (q * 60 + r / 60) * 60 + r % 60;
    }
  }

  lemma MinutesOfMillis(n: nat)
    ensures n / 60_000 == (n / 1000) / 60
  {
    var sec := n / 1000;
    assert n == (sec / 60) * 60_000 + (sec % 60) * 1000 + n % 1000;
  }

  lemma HoursOfMillis(n: nat)
    ensures n / 3_600_000 == (n / 1000) / 3600
  {
    var sec := n / 1000;
    assert n == (sec / 3600) * 3_600_000 + (sec % 3600) * 1000 + n % 1000;
  }

  /** `formatTime(ms)`: "%02d:%02d:%02d". */
  function FormatTime(ms: Int64): (r: string)
    ensures |r| >= 8
    ensures ms >= 0 ==> r == Pad2(ClockParts(ms).0) + ":" + Pad2(ClockParts(ms).1) + ":" + Pad2(ClockParts(ms).2)
  {
    var (h, m, sec) := ClockParts(ms);
    Pad2(h) + ":" + Pad2(m) + ":" + Pad2(sec)
  }
}
