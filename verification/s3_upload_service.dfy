/** The upload service: a FIFO queue of upload tasks served one at a time,
    handed to the transfer engine, retried with exponential back-off, and
    persisted through metadata records so that a restarted service can
    re-attach to unfinished transfers.

    The transfer engine is an oracle held in the state: it hands out
    transfer ids in increasing order, remembers each transfer's state, and
    says which look-ups, resumes and pauses throw. Its callbacks (state changes, errors) and the retry
    timers are events. */
module S3UploadService {
  import opened Common
  import opened Text
  import opened S3Metadata

  const ACTION_STOP: string := "action_stop_upload"

  /** The transfer engine as far as the service can observe it: the state
      of each transfer it knows, the uploads in submission order, the next
      id it will hand out, the ids whose look-up or resume throws (with the
      exception's message, if any), and the ids whose pause throws. */
  datatype Engine = Engine(
    transfers: map<Int32, Option<TransferState>>,
    uploads: seq<Int32>,
    nextId: Int32,
    lookupFailures: map<Int32, Option<string>>,
    resumeFailures: map<Int32, Option<string>>,
    pauseFailures: set<Int32>)

  /** Every listed upload is a transfer the engine knows, and below the
      top of the id range every known id is below the next one. */
  predicate EngineOk(e: Engine) {
    && (forall i :: 0 <= i < |e.uploads| ==> e.uploads[i] in e.transfers)
    && (e.nextId < 0x7FFF_FFFF ==> forall k :: k in e.transfers ==> k < e.nextId)
  }

  /** `utility.upload(...)`: a new waiting transfer under the next id, which
      no earlier transfer holds. */
  function EngineUpload(e: Engine): (r: (Engine, Int32))
    ensures r.0.transfers.Keys == e.transfers.Keys + {r.1}
    ensures r.0.transfers[r.1] == Some(Waiting) && r.0.uploads == e.uploads + [r.1]
    ensures r.0.lookupFailures == e.lookupFailures && r.0.resumeFailures == e.resumeFailures
    ensures r.0.pauseFailures == e.pauseFailures
    ensures forall k :: k in e.transfers && k != r.1 ==> r.0.transfers[k] == e.transfers[k]
    ensures EngineOk(e) && e.nextId < 0x7FFF_FFFF ==> r.1 !in e.transfers && r.1 < r.0.nextId
    ensures EngineOk(e) ==> EngineOk(r.0)
  {
    var next := if e.nextId < 0x7FFF_FFFF then e.nextId + 1 else e.nextId;
    (e.(transfers := e.transfers[e.nextId := Some(Waiting)], uploads := e.uploads + [e.nextId], nextId := next), e.nextId)
  }

  /** The state the engine reports for a transfer; none if it is unknown. */
  function ObservedState(e: Engine, id: Int32): Option<TransferState> {
    if id in e.transfers then e.transfers[id] else None
  }

  /** `utility.resume(id)`. */
  function EngineResume(e: Engine, id: Int32): (r: Engine)
    ensures r.transfers.Keys == e.transfers.Keys + {id} && r.uploads == e.uploads
    ensures r.lookupFailures == e.lookupFailures && r.resumeFailures == e.resumeFailures
    ensures r.pauseFailures == e.pauseFailures && r.nextId == e.nextId
    ensures ObservedState(r, id) == Some(ResumedWaiting)
    ensures forall other :: other != id ==> ObservedState(r, other) == ObservedState(e, other)
    ensures EngineOk(e) && id in e.transfers ==> EngineOk(r)
  {
    e.(transfers := e.transfers[id := Some(ResumedWaiting)])
  }

  /** `utility.pause(id)` for every id in `ids`; a pause that throws is
      caught and leaves its transfer as it was. */
  function EnginePause(e: Engine, ids: set<Int32>): (r: Engine)
    ensures r.transfers.Keys == e.transfers.Keys && r.(transfers := e.transfers) == e
    ensures forall id :: id in ids && id !in e.pauseFailures && id in e.transfers ==> r.transfers[id] == Some(Paused)
    ensures forall id :: (id !in ids || id in e.pauseFailures) && id in e.transfers ==> r.transfers[id] == e.transfers[id]
    ensures EngineOk(e) ==> EngineOk(r)
  {
    e.(transfers := map id | id in e.transfers :: if id in ids && id !in e.pauseFailures then Some(Paused) else e.transfers[id])
  }

  /** The broadcasts the service sends. */
  datatype Broadcast =
    | UploadComplete(tripId: Option<string>, s3Key: string)
    | UploadFailed(tripId: Option<string>, s3Key: string, error: string)

  /** A pending `retryHandler.postDelayed`: the task copy it re-enqueues and its delay. */
  datatype RetryTimer = RetryTimer(task: UploadTask, delayMs: Int64)

  datatype Service = Service(
    engineReady: bool,
    queue: seq<UploadTask>,
    uploading: bool,
    store: MetaStore,
    active: set<Int32>,
    attached: set<Int32>,
    listeners: map<Int32, UploadTask>,
    timers: multiset<RetryTimer>,
    log: seq<Broadcast>,
    stopped: bool,
    engine: Engine)

  // ---------------------------------------------------------------------
  // The service invariant
  // ---------------------------------------------------------------------

  /** A task as the service accepts it: a non-blank path and key, and an
      attempt below the ceiling. */
  predicate WellFormedTask(t: UploadTask) {
    !IsBlank(t.filePath) && !IsBlank(t.s3Key) && 0 <= t.attempt < MAX_UPLOAD_ATTEMPTS
  }

  /** A retry timer carries the next attempt and the back-off of the failed one. */
  predicate WellFormedTimer(t: RetryTimer) {
    WellFormedTask(t.task) && t.task.attempt >= 1 && t.delayMs == RetryDelay(t.task.attempt - 1)
  }

  predicate TasksOk(q: seq<UploadTask>) {
    forall i :: 0 <= i < |q| ==> WellFormedTask(q[i])
  }

  predicate TimersOk(ts: multiset<RetryTimer>) {
    forall t :: t in ts ==> WellFormedTimer(t)
  }

  predicate ListenersOk(m: map<Int32, UploadTask>) {
    forall id :: id in m ==> WellFormedTask(m[id])
  }

  predicate StoreOk(store: MetaStore) {
    forall id :: id in store ==> 0 <= store[id].attempt < MAX_UPLOAD_ATTEMPTS
  }

  /** The service invariant: the two id sets agree, every live transfer has
      metadata and is known to the engine, and every task anywhere in the
      service is well formed. */
  predicate Inv(s: Service) {
    && s.active == s.attached
    && s.active <= s.store.Keys
    && s.active <= s.engine.transfers.Keys
    && TasksOk(s.queue)
    && TimersOk(s.timers)
    && ListenersOk(s.listeners)
    && StoreOk(s.store)
    && EngineOk(s.engine)
  }

  /** What no operation takes back: broadcasts only accumulate and the
      engine never forgets a transfer. */
  predicate Grows(s: Service, r: Service) {
    s.log <= r.log && s.engine.transfers.Keys <= r.engine.transfers.Keys
  }

  lemma GrowsTransitive(a: Service, b: Service, c: Service)
    requires Grows(a, b) && Grows(b, c)
    ensures Grows(a, c)
  {
  }

  lemma SaveKeepsStoreOk(store: MetaStore, id: Int32, task: UploadTask)
    ensures StoreOk(store) && WellFormedTask(task) ==> StoreOk(SaveMeta(store, id, task))
  {
  }

  lemma DequeueKeepsTasksOk(q: seq<UploadTask>)
    requires q != []
    ensures TasksOk(q) ==> WellFormedTask(q[0]) && TasksOk(q[1..])
  {
  }

  // ---------------------------------------------------------------------
  // The upload pipeline
  // ---------------------------------------------------------------------

  /** `processNext`: nothing while an upload runs; otherwise take the head
      of the queue, or, with an empty queue and no live transfer, stop. */
  function ProcessNext(s: Service): (r: Service)
    ensures s.uploading ==> r == s
    ensures !s.uploading && s.queue == [] ==> r == s.(stopped := s.stopped || s.active == {})
    ensures Grows(s, r)
    ensures Inv(s) ==> Inv(r)
    decreases |s.queue|, 0, 0, 0
  {
    if s.uploading then s
    else if s.queue == [] then (if s.active != {} then s else s.(stopped := true))
    else
      DequeueKeepsTasksOk(s.queue);
      PerformUpload(s.(queue := s.queue[1..], uploading := true), s.queue[0])
  }

  /** `performUpload`. Without an engine: a failure broadcast and the next
      task. Otherwise re-attach to a stored transfer of the same upload if
      there is one, else start a new transfer and record its metadata. */
  function PerformUpload(s: Service, task: UploadTask): (r: Service)
    ensures !s.engineReady ==>
      r == ProcessNext(s.(log := s.log + [UploadFailed(task.tripId, task.s3Key, "S3 Client not initialized")], uploading := false))
    ensures s.engineReady && FindExisting(s.store, task).None? ==>
      |r.engine.uploads| > |s.engine.uploads| && r.engine.uploads[|s.engine.uploads|] == s.engine.nextId
    ensures Grows(s, r)
    ensures Inv(s) && WellFormedTask(task) ==> Inv(r)
    decreases |s.queue|, 3, |s.store|, 1
  {
    if !s.engineReady then
      ProcessNext(s.(log := s.log + [UploadFailed(task.tripId, task.s3Key, "S3 Client not initialized")], uploading := false))
    else
      var existing := FindExisting(s.store, task);
      if existing.Some? then AttachAndMaybeResume(s, existing.value, task)
      else
        var (s1, id) := Submit(s, task);
        Attach(s1, id, task, false)
  }

  /** The first half of a fresh upload: `utility.upload` and the metadata
      record under the new transfer's id. */
  function Submit(s: Service, task: UploadTask): (r: (Service, Int32))
    ensures r.0 == s.(engine := EngineUpload(s.engine).0, store := SaveMeta(s.store, r.1, task))
    ensures r.1 == s.engine.nextId && r.1 in r.0.engine.transfers
    ensures r.0.engine.uploads == s.engine.uploads + [r.1]
    ensures EngineOk(s.engine) && s.engine.nextId < 0x7FFF_FFFF ==> r.1 !in s.engine.transfers
    ensures Grows(s, r.0)
    ensures Inv(s) && WellFormedTask(task) ==> Inv(r.0)
  {
    var (e, id) := EngineUpload(s.engine);
    SaveKeepsStoreOk(s.store, id, task);
    (s.(engine := e, store := SaveMeta(s.store, id, task)), id)
  }
  /** `attachAndMaybeResumeTransfer` for a transfer id found in the store:
      without an engine, or when the look-up throws, the task fails; an id
      the engine no longer knows loses its metadata and the task is
      uploaded afresh; a known id is attached and resumed if it stalled. */
  function AttachAndMaybeResume(s: Service, id: Int32, task: UploadTask): (r: Service)
    requires id in s.store
    ensures Grows(s, r)
    ensures Inv(s) && WellFormedTask(task) ==> Inv(r)
    decreases |s.queue|, 3, |s.store|, 0
  {
    if !s.engineReady then HandleFailure(s, task, id, "S3 Client not initialized")
    else if id in s.engine.lookupFailures then
      HandleFailure(s, task, id, s.engine.lookupFailures[id].GetOr("Attach transfer failed"))
    else if id !in s.engine.transfers then PerformUpload(s.(store := RemoveMeta(s.store, id)), task)
    else Attach(s, id, task, true)
  }

  /** The resume decision of `attachTransferListener`, on the state the
      engine reports for the transfer. */
  predicate WantsResume(s: Service, id: Int32, resume: bool) {
    resume && ShouldResumeState(ObservedName(ObservedState(s.engine, id)))
  }

  /** `attachTransferListener`: record the metadata, mark the id active and
      attached, register the listener, and resume a stalled transfer when
      asked; a resume that throws fails the task. */
  function Attach(s: Service, id: Int32, task: UploadTask, resume: bool): (r: Service)
    ensures !WantsResume(s, id, resume) ==>
      r == s.(store := SaveMeta(s.store, id, task), active := s.active + {id},
              attached := s.attached + {id}, listeners := s.listeners[id := task])
    ensures WantsResume(s, id, resume) && id !in s.engine.resumeFailures ==>
      r == s.(store := SaveMeta(s.store, id, task), active := s.active + {id},
              attached := s.attached + {id}, listeners := s.listeners[id := task],
              engine := EngineResume(s.engine, id))
    ensures Grows(s, r)
    ensures Inv(s) && WellFormedTask(task) && id in s.engine.transfers ==> Inv(r)
    decreases |s.queue|, 2, 0, 0
  {
    SaveKeepsStoreOk(s.store, id, task);
    var s1 := s.(store := SaveMeta(s.store, id, task), active := s.active + {id},
                 attached := s.attached + {id}, listeners := s.listeners[id := task]);
    if WantsResume(s, id, resume) then
      if id in s.engine.resumeFailures then HandleFailure(s1, task, id, s.engine.resumeFailures[id].GetOr("Resume failed"))
      else s1.(engine := EngineResume(s1.engine, id))
    else s1
  }

  /** The bookkeeping of `handleUploadFailure`: forget the transfer, then
      either arm a retry timer for the next attempt or, at the ceiling,
      broadcast the failure. Either way the slot is freed. */
  function RecordFailure(s: Service, task: UploadTask, id: Int32, reason: string): (r: Service)
    ensures id !in r.active && id !in r.attached && id !in r.store && !r.uploading
    ensures r.active == s.active - {id} && r.store == RemoveMeta(s.store, id)
    ensures r.queue == s.queue && r.engine == s.engine && r.listeners == s.listeners
    ensures NextAttempt(task.attempt) < MAX_UPLOAD_ATTEMPTS ==>
      r.log == s.log && r.timers == s.timers + multiset{RetryTimer(task.(attempt := NextAttempt(task.attempt)), RetryDelay(task.attempt))}
    ensures NextAttempt(task.attempt) >= MAX_UPLOAD_ATTEMPTS ==>
      r.log == s.log + [UploadFailed(task.tripId, task.s3Key, reason)] && r.timers == s.timers
  {
    var s1 := s.(active := s.active - {id}, attached := s.attached - {id}, store := RemoveMeta(s.store, id));
    var next := NextAttempt(task.attempt);
    if next < MAX_UPLOAD_ATTEMPTS then
      s1.(uploading := false, timers := s1.timers + multiset{RetryTimer(task.(attempt := next), RetryDelay(task.attempt))})
    else
      s1.(log := s1.log + [UploadFailed(task.tripId, task.s3Key, reason)], uploading := false)
  }

  lemma AddTimerKeepsTimersOk(ts: multiset<RetryTimer>, t: RetryTimer)
    requires TimersOk(ts) && WellFormedTimer(t)
    ensures TimersOk(ts + multiset{t})
  {
    forall u | u in ts + multiset{t}
      ensures WellFormedTimer(u)
    {
      if u != t {
        assert u in ts;
      }
    }
  }

  lemma RecordFailureKeepsInv(s: Service, task: UploadTask, id: Int32, reason: string)
    ensures Inv(s) && WellFormedTask(task) ==> Inv(RecordFailure(s, task, id, reason))
  {
    if Inv(s) && WellFormedTask(task) {
      var r := RecordFailure(s, task, id, reason);
      assert r.active <= r.store.Keys;
      assert StoreOk(r.store);
      if NextAttempt(task.attempt) < MAX_UPLOAD_ATTEMPTS {
        AddTimerKeepsTimersOk(s.timers, RetryTimer(task.(attempt := NextAttempt(task.attempt)), RetryDelay(task.attempt)));
      }
    }
  }

  /** `handleUploadFailure`: the bookkeeping, then the next task. */
  function HandleFailure(s: Service, task: UploadTask, id: Int32, reason: string): (r: Service)
    ensures Grows(s, r)
    ensures Inv(s) && WellFormedTask(task) ==> Inv(r)
    decreases |s.queue|, 1, 0, 0
  {
    RecordFailureKeepsInv(s, task, id, reason);
    ProcessNext(RecordFailure(s, task, id, reason))
  }

  /** The bookkeeping of the COMPLETED callback: forget the transfer,
      broadcast success with the task's trip id and key, free the slot. */
  function CompleteBookkeeping(s: Service, id: Int32, task: UploadTask): (r: Service)
    ensures id !in r.active && id !in r.attached && !r.uploading
    ensures r.active == s.active - {id} && r.attached == s.attached - {id}
    ensures r.store == RemoveMeta(s.store, id) && id !in r.store
    ensures r.log == s.log + [UploadComplete(task.tripId, task.s3Key)]
    ensures r.queue == s.queue && r.engine == s.engine && r.listeners == s.listeners && r.timers == s.timers
    ensures Inv(s) ==> Inv(r)
  {
    s.(active := s.active - {id}, attached := s.attached - {id}, store := RemoveMeta(s.store, id),
       log := s.log + [UploadComplete(task.tripId, task.s3Key)], uploading := false)
  }

  /** The COMPLETED callback: the bookkeeping, then the next task. With
      nothing queued the transfer is gone from every set, and the service
      stops once no transfer is live. */
  function Complete(s: Service, id: Int32, task: UploadTask): (r: Service)
    ensures Grows(s, r)
    ensures |r.log| > |s.log| && r.log[|s.log|] == UploadComplete(task.tripId, task.s3Key)
    ensures s.queue == [] ==>
      && r.log == s.log + [UploadComplete(task.tripId, task.s3Key)]
      && id !in r.active && id !in r.attached && id !in r.store && !r.uploading
      && r.active == s.active - {id}
      && r.stopped == (s.stopped || s.active - {id} == {})
    ensures Inv(s) ==> Inv(r)
  {
    ProcessNext(CompleteBookkeeping(s, id, task))
  }

  // ---------------------------------------------------------------------
  // Commands and callbacks
  // ---------------------------------------------------------------------

  /** The extras of a start intent. */
  datatype Intent = Intent(action: Option<string>, filePath: Option<string>, s3Key: Option<string>, tripId: Option<string>)

  datatype StartResult = StartSticky | StartNotSticky

  predicate IsNullOrBlank(s: Option<string>) {
    s.None? || IsBlank(s.value)
  }

  /** `pauseActiveTransfers`: without an engine it returns at once and
      leaves the slot as it is. */
  function PauseActive(s: Service): (r: Service)
    ensures !s.engineReady ==> r == s
    ensures s.engineReady ==> r == s.(engine := EnginePause(s.engine, s.active), uploading := false)
  {
    if !s.engineReady then s
    else s.(engine := EnginePause(s.engine, s.active), uploading := false)
  }

  lemma EnqueueKeepsInv(s: Service, t: UploadTask)
    ensures Inv(s) && WellFormedTask(t) ==> Inv(s.(queue := s.queue + [t]))
  {
  }

  lemma StopKeepsInv(s: Service)
    ensures Inv(s) ==> Inv(PauseActive(s.(queue := [])).(stopped := true))
  {
  }

  predicate IsStop(intent: Option<Intent>) {
    intent.Some? && intent.value.action == Some(ACTION_STOP)
  }

  /** An upload request names a non-blank path of an existing file and a non-blank key. */
  predicate AcceptsUpload(intent: Option<Intent>, existing: set<string>) {
    && intent.Some?
    && !IsNullOrBlank(intent.value.filePath) && !IsNullOrBlank(intent.value.s3Key)
    && intent.value.filePath.value in existing
  }

  /** The task an accepted request enqueues: first attempt, trip id as given. */
  function IntentTask(intent: Option<Intent>, existing: set<string>): (t: UploadTask)
    requires AcceptsUpload(intent, existing)
    ensures WellFormedTask(t) && t.attempt == 0
  {
    UploadTask(intent.value.filePath.value, intent.value.s3Key.value, intent.value.tripId, 0)
  }

  /** `onStartCommand`. `existing` is the set of paths that exist on disk.
      A stop request empties the queue and pauses the live transfers. An
      upload request with a non-blank path and key of an existing file is
      enqueued and the queue is served; anything else is ignored. */
  function OnStartCommand(s: Service, intent: Option<Intent>, existing: set<string>): (r: (Service, StartResult))
    ensures IsStop(intent) ==>
      r.1 == StartNotSticky && r.0.queue == [] && r.0.stopped && r.0.log == s.log && r.0.active == s.active
    ensures IsStop(intent) && s.engineReady ==>
      && !r.0.uploading
      && (forall id :: id in s.active && id !in s.engine.pauseFailures && id in s.engine.transfers ==>
            ObservedState(r.0.engine, id) == Some(Paused))
      && (forall id :: (id !in s.active || id in s.engine.pauseFailures) ==>
            ObservedState(r.0.engine, id) == ObservedState(s.engine, id))
    ensures IsStop(intent) && !s.engineReady ==> r.0.engine == s.engine && r.0.uploading == s.uploading
    ensures !IsStop(intent) ==> r.1 == StartSticky
    ensures !IsStop(intent) && !AcceptsUpload(intent, existing) ==> r.0 == s
    ensures !IsStop(intent) && AcceptsUpload(intent, existing) && s.uploading ==>
      r.0 == s.(queue := s.queue + [IntentTask(intent, existing)])
    ensures !IsStop(intent) && AcceptsUpload(intent, existing) ==>
      r.0 == ProcessNext(s.(queue := s.queue + [IntentTask(intent, existing)]))
    ensures Grows(s, r.0)
    ensures Inv(s) ==> Inv(r.0)
  {
    if IsStop(intent) then
      StopKeepsInv(s);
      (PauseActive(s.(queue := [])).(stopped := true), StartNotSticky)
    else if !AcceptsUpload(intent, existing) then (s, StartSticky)
    else
      var task := IntentTask(intent, existing);
      EnqueueKeepsInv(s, task);
      (ProcessNext(s.(queue := s.queue + [task])), StartSticky)
  }

  datatype Event =
    | StateChanged(id: Int32, state: Option<TransferState>)
    | TransferError(id: Int32, message: Option<string>)
    | RetryFired(timer: RetryTimer)

  /** The engine's callbacks, delivered to the listener registered for the
      id (if any), and the retry timers firing. The engine reports only
      transfers it knows, and records a state change before delivering it. */
  function Step(s: Service, e: Event): (r: Service)
    ensures Grows(s, r)
    ensures e.RetryFired? && e.timer !in s.timers ==> r == s
    ensures (e.StateChanged? || e.TransferError?) && e.id !in s.listeners ==> r.log == s.log && r.active == s.active
    ensures e.StateChanged? && e.id in s.listeners && e.state == Some(Completed) ==>
      |r.log| > |s.log| && r.log[|s.log|] == UploadComplete(s.listeners[e.id].tripId, s.listeners[e.id].s3Key)
    ensures e.RetryFired? && e.timer in s.timers && s.uploading ==>
      r == s.(queue := s.queue + [e.timer.task], timers := s.timers - multiset{e.timer})
    ensures e.RetryFired? && e.timer in s.timers ==>
      r == ProcessNext(s.(queue := s.queue + [e.timer.task], timers := s.timers - multiset{e.timer}))
  {
    match e
    case StateChanged(id, st) =>
      var s1 := if id in s.engine.transfers then s.(engine := s.engine.(transfers := s.engine.transfers[id := st])) else s;
      if id !in s.listeners then s1
      else if st == Some(Completed) then Complete(s1, id, s.listeners[id])
      else if st == Some(Failed) then HandleFailure(s1, s.listeners[id], id, "Transfer State: FAILED")
      else s1
    case TransferError(id, msg) =>
      if id in s.listeners then HandleFailure(s, s.listeners[id], id, msg.GetOr("Unknown Error")) else s
    case RetryFired(t) =>
      if t in s.timers then ProcessNext(s.(timers := s.timers - multiset{t}, queue := s.queue + [t.task]))
      else s
  }

  /** Every event keeps the service invariant. */
  lemma StepPreservesInv(s: Service, e: Event)
    requires Inv(s)
    ensures Inv(Step(s, e))
  {
    match e
    case StateChanged(id, st) => StateChangedPreservesInv(s, id, st);
    case TransferError(id, msg) =>
    case RetryFired(t) => RetryFiredPreservesInv(s, t);
  }

  lemma StateChangedPreservesInv(s: Service, id: Int32, st: Option<TransferState>)
    requires Inv(s)
    ensures Inv(Step(s, StateChanged(id, st)))
  {
    var s1 := if id in s.engine.transfers then s.(engine := s.engine.(transfers := s.engine.transfers[id := st])) else s;
    assert Inv(s1);
  }

  lemma RetryFiredPreservesInv(s: Service, t: RetryTimer)
    requires Inv(s)
    ensures Inv(Step(s, RetryFired(t)))
  {
    if t in s.timers {
      var s1 := s.(timers := s.timers - multiset{t}, queue := s.queue + [t.task]);
      assert TasksOk(s1.queue);
      assert Inv(s1);
    }
  }

  function Run(s: Service, events: seq<Event>): (r: Service)
    ensures Grows(s, r)
    decreases |events|
  {
    if events == [] then s
    else
      var s1 := Step(s, events[0]);
      GrowsTransitive(s, s1, Run(s1, events[1..]));
      Run(s1, events[1..])
  }

  lemma {:induction false} RunPreservesInv(s: Service, events: seq<Event>)
    requires Inv(s)
    ensures Inv(Run(s, events))
    decreases |events|
  {
    if events != [] {
      StepPreservesInv(s, events[0]);
      RunPreservesInv(Step(s, events[0]), events[1..]);
    }
  }

  // ---------------------------------------------------------------------
  // Creation and recovery
  // ---------------------------------------------------------------------

  /** A newly created service over the persisted metadata and engine. */
  function Create(engineReady: bool, store: MetaStore, engine: Engine): (r: Service)
    ensures r.queue == [] && !r.uploading && r.active == {} && r.log == [] && r.timers == multiset{}
    ensures r.store == store && r.engine == engine
    ensures StoreOk(store) && EngineOk(engine) ==> Inv(r)
  {
    Service(engineReady, [], false, store, {}, {}, map[], multiset{}, [], false, engine)
  }

  /** The filter of `recoverPersistedTransfers`: the engine reports a
      recoverable state (an unknown state reads as "UNKNOWN") and the
      metadata reads back. */
  predicate Recoverable(s: Service, id: Int32) {
    IsRecoverableState(ObservedName(ObservedState(s.engine, id)).GetOr("UNKNOWN")) && ReadMeta(s.store, id).Some?
  }

  /** The ids among `ids` that recovery re-attaches. */
  function RecoveredIds(s: Service, ids: seq<Int32>): set<Int32> {
    set i | 0 <= i < |ids| && Recoverable(s, ids[i]) :: ids[i]
  }

  /** The loop of `recoverPersistedTransfers` over the engine's uploads. */
  function RecoverEach(s: Service, ids: seq<Int32>): (r: Service)
    ensures Grows(s, r)
    ensures Inv(s) && (forall i :: 0 <= i < |ids| ==> ids[i] in s.engine.transfers) ==> Inv(r)
    decreases |ids|
  {
    if ids == [] then s
    else
      var id := ids[0];
      if !Recoverable(s, id) then RecoverEach(s, ids[1..])
      else
        var s1 := Attach(s, id, ReadMeta(s.store, id).value, true);
        GrowsTransitive(s, s1, RecoverEach(s1, ids[1..]));
        RecoverEach(s1, ids[1..])
  }

  /** `onCreate`: create, then recover if the engine could be built. */
  function Restart(engineReady: bool, store: MetaStore, engine: Engine): (r: Service)
    ensures !engineReady ==> r == Create(engineReady, store, engine)
    ensures StoreOk(store) && EngineOk(engine) ==> Inv(r)
  {
    var s := Create(engineReady, store, engine);
    if !engineReady then s else RecoverEach(s, engine.uploads)
  }

  /** Re-attaching one transfer changes neither what recovery reads for
      any id nor which ids it considers recoverable. */
  lemma AttachKeepsRecoverable(s: Service, id: Int32, x: Int32)
    requires Recoverable(s, id) && id !in s.engine.resumeFailures
    ensures Attach(s, id, ReadMeta(s.store, id).value, true).engine.resumeFailures == s.engine.resumeFailures
    ensures ReadMeta(Attach(s, id, ReadMeta(s.store, id).value, true).store, x) == ReadMeta(s.store, x)
    ensures Recoverable(Attach(s, id, ReadMeta(s.store, id).value, true), x) == Recoverable(s, x)
  {
    ResaveIsInvisible(s.store, id, x);
    if WantsResume(s, id, true) && x == id {
      var st := ObservedState(s.engine, id);
      RecoveryFilters(ResumedWaiting);
      if st.None? {
        RecoveryFilters(Paused);
      } else {
        RecoveryFilters(st.value);
      }
    }
  }

  /** One recoverable id: recovery attaches it with the task its metadata
      records, and what it reads for every other id is unchanged. */
  lemma RecoverOne(s: Service, ids: seq<Int32>)
    requires ids != [] && Recoverable(s, ids[0]) && ids[0] !in s.engine.resumeFailures
    ensures var s1 := Attach(s, ids[0], ReadMeta(s.store, ids[0]).value, true);
      && RecoverEach(s, ids) == RecoverEach(s1, ids[1..])
      && s1.attached == s.attached + {ids[0]} && s1.log == s.log
      && s1.listeners == s.listeners[ids[0] := ReadMeta(s.store, ids[0]).value]
      && s1.engine.resumeFailures == s.engine.resumeFailures
      && (forall x :: Recoverable(s1, x) == Recoverable(s, x) && ReadMeta(s1.store, x) == ReadMeta(s.store, x))
  {
    var id := ids[0];
    var task := ReadMeta(s.store, id).value;
    var s1 := Attach(s, id, task, true);
    AttachWithoutFailure(s, id, task);
    forall x
      ensures Recoverable(s1, x) == Recoverable(s, x) && ReadMeta(s1.store, x) == ReadMeta(s.store, x)
    {
      AttachKeepsRecoverable(s, id, x);
    }
  }

  /** A resumed re-attachment that does not throw records the listener and
      leaves the log and the failing resumes alone. */
  lemma AttachWithoutFailure(s: Service, id: Int32, task: UploadTask)
    requires id !in s.engine.resumeFailures
    ensures var s1 := Attach(s, id, task, true);
      && s1.attached == s.attached + {id} && s1.log == s.log
      && s1.listeners == s.listeners[id := task]
      && s1.engine.resumeFailures == s.engine.resumeFailures
  {
  }

  /** With no resume throwing, recovery attaches exactly the recoverable
      uploads and broadcasts nothing. */
  lemma {:induction false} RecoverAttaches(s: Service, ids: seq<Int32>)
    requires forall i :: 0 <= i < |ids| ==> ids[i] !in s.engine.resumeFailures
    ensures RecoverEach(s, ids).attached == s.attached + RecoveredIds(s, ids)
    ensures RecoverEach(s, ids).log == s.log
    decreases |ids|
  {
    if ids != [] {
      var id := ids[0];
      var rest := ids[1..];
      assert forall i :: 0 <= i < |rest| ==> rest[i] == ids[i + 1];
      if !Recoverable(s, id) {
        RecoverAttaches(s, rest);
        assert RecoveredIds(s, ids) == RecoveredIds(s, rest);
      } else {
        var s1 := Attach(s, id, ReadMeta(s.store, id).value, true);
        RecoverOne(s, ids);
        RecoveredStep(s, s1, id, ids);
        RecoverAttaches(s1, rest);
      }
    }
  }

  /** With no resume throwing, recovery leaves the listeners of the ids it
      does not recover alone. */
  lemma {:induction false} RecoverKeepsOtherListeners(s: Service, ids: seq<Int32>)
    requires forall i :: 0 <= i < |ids| ==> ids[i] !in s.engine.resumeFailures
    ensures forall id :: id in s.listeners && id !in RecoveredIds(s, ids) ==>
      id in RecoverEach(s, ids).listeners && RecoverEach(s, ids).listeners[id] == s.listeners[id]
    decreases |ids|
  {
    if ids != [] {
      var id := ids[0];
      var rest := ids[1..];
      assert forall i :: 0 <= i < |rest| ==> rest[i] == ids[i + 1];
      if !Recoverable(s, id) {
        RecoverKeepsOtherListeners(s, rest);
        assert RecoveredIds(s, ids) == RecoveredIds(s, rest);
      } else {
        var s1 := Attach(s, id, ReadMeta(s.store, id).value, true);
        RecoverOne(s, ids);
        RecoveredStep(s, s1, id, ids);
        RecoverKeepsOtherListeners(s1, rest);
      }
    }
  }

  /** With no resume throwing, recovery gives each recoverable upload a
      listener for the task its metadata records. */
  lemma {:induction false} RecoverListens(s: Service, ids: seq<Int32>)
    requires forall i :: 0 <= i < |ids| ==> ids[i] !in s.engine.resumeFailures
    ensures forall id :: id in RecoveredIds(s, ids) ==>
      id in RecoverEach(s, ids).listeners && RecoverEach(s, ids).listeners[id] == ReadMeta(s.store, id).value
    decreases |ids|
  {
    if ids != [] {
      var id := ids[0];
      var rest := ids[1..];
      assert forall i :: 0 <= i < |rest| ==> rest[i] == ids[i + 1];
      if !Recoverable(s, id) {
        RecoverListens(s, rest);
        assert RecoveredIds(s, ids) == RecoveredIds(s, rest);
      } else {
        var s1 := Attach(s, id, ReadMeta(s.store, id).value, true);
        RecoverOne(s, ids);
        RecoveredStep(s, s1, id, ids);
        RecoverListens(s1, rest);
        RecoverKeepsOtherListeners(s1, rest);
      }
    }
  }

  lemma RecoveredStep(s: Service, s1: Service, id: Int32, ids: seq<Int32>)
    requires ids != [] && ids[0] == id && Recoverable(s, id)
    requires forall x :: Recoverable(s1, x) == Recoverable(s, x)
    ensures RecoveredIds(s1, ids[1..]) == RecoveredIds(s, ids[1..])
    ensures RecoveredIds(s, ids) == {id} + RecoveredIds(s, ids[1..])
  {
    var rest := ids[1..];
    assert forall i :: 0 <= i < |rest| ==> rest[i] == ids[i + 1];
    assert forall x :: x in RecoveredIds(s, ids) && x != id ==> x in RecoveredIds(s, rest);
  }
  // ---------------------------------------------------------------------
  // Properties of the pipeline
  // ---------------------------------------------------------------------

  /** The failure broadcasts of a queue drained without an engine. */
  function NoEngineFailures(q: seq<UploadTask>): (r: seq<Broadcast>)
    ensures |r| == |q|
    ensures forall i :: 0 <= i < |q| ==> r[i] == UploadFailed(q[i].tripId, q[i].s3Key, "S3 Client not initialized")
  {
    if q == [] then [] else [UploadFailed(q[0].tripId, q[0].s3Key, "S3 Client not initialized")] + NoEngineFailures(q[1..])
  }

  /** Without an engine the free slot works through the whole queue, one
      failure broadcast per task in queue order... */
  lemma {:induction false} NoEngineFailsEveryTask(s: Service)
    requires !s.engineReady && !s.uploading
    ensures ProcessNext(s).log == s.log + NoEngineFailures(s.queue)
    decreases |s.queue|
  {
    if s.queue != [] {
      var s1, f := NoEngineStep(s);
      NoEngineFailsEveryTask(s1);
      ConcatAssoc(s.log, [f], NoEngineFailures(s1.queue));
    }
  }

  /** ... and it leaves the queue empty and arms no retry. */
  lemma {:induction false} NoEngineDrainsQueue(s: Service)
    requires !s.engineReady && !s.uploading
    ensures ProcessNext(s).queue == [] && ProcessNext(s).timers == s.timers
    decreases |s.queue|
  {
    if s.queue != [] {
      var s1, f := NoEngineStep(s);
      NoEngineDrainsQueue(s1);
    }
  }

  /** Without an engine, one turn of the slot drops the head of the queue
      and logs its failure. */
  lemma NoEngineStep(s: Service) returns (s1: Service, f: Broadcast)
    requires !s.engineReady && !s.uploading && s.queue != []
    ensures f == UploadFailed(s.queue[0].tripId, s.queue[0].s3Key, "S3 Client not initialized")
    ensures s1 == s.(queue := s.queue[1..], log := s.log + [f])
    ensures ProcessNext(s) == ProcessNext(s1)
    ensures NoEngineFailures(s.queue) == [f] + NoEngineFailures(s1.queue)
  {
    var t := s.queue[0];
    f := UploadFailed(t.tripId, t.s3Key, "S3 Client not initialized");
    var s0 := s.(queue := s.queue[1..], uploading := true);
    s1 := s.(queue := s.queue[1..], log := s.log + [f]);
    assert ProcessNext(s) == PerformUpload(s0, t);
    assert s0.(log := s0.log + [f], uploading := false) == s1;
  }

  /** A free slot takes the head of the queue; a task with no persisted
      transfer of the same upload becomes a new transfer under the engine's
      next id, with its metadata saved and its listener registered. */
  lemma ProcessNextStartsHead(s: Service)
    requires s.engineReady && !s.uploading && s.queue != []
    requires FindExisting(s.store, s.queue[0]).None?
    ensures var r := ProcessNext(s); var id := s.engine.nextId;
      && r.queue == s.queue[1..] && r.uploading
      && r.engine.uploads == s.engine.uploads + [id]
      && ObservedState(r.engine, id) == Some(Waiting)
      && id in r.active && id in r.attached
      && id in r.listeners && r.listeners[id] == s.queue[0]
      && ReadMeta(r.store, id) == ReadMeta(SaveMeta(s.store, id, s.queue[0]), id)
      && r.log == s.log
  {
    var t := s.queue[0];
    var s1 := s.(queue := s.queue[1..], uploading := true);
    assert ProcessNext(s) == PerformUpload(s1, t);
    var (s3, nid) := Submit(s1, t);
    assert PerformUpload(s1, t) == Attach(s3, nid, t, false);
  }

  /** An accepted upload request reaching an idle service with an empty
      queue becomes the active transfer at once: a new transfer under the
      engine's next id, unlike any it knew, with the request's task as its
      listener and its metadata saved. */
  lemma OnStartCommandStartsUpload(s: Service, intent: Option<Intent>, existing: set<string>)
    requires !IsStop(intent) && AcceptsUpload(intent, existing)
    requires s.engineReady && !s.uploading && s.queue == []
    requires FindExisting(s.store, IntentTask(intent, existing)).None?
    requires EngineOk(s.engine) && s.engine.nextId < 0x7FFF_FFFF
    ensures var r := OnStartCommand(s, intent, existing).0; var id := s.engine.nextId;
      && id !in s.engine.transfers
      && r.queue == [] && r.uploading && r.stopped == s.stopped
      && ObservedState(r.engine, id) == Some(Waiting)
      && id in r.active && id in r.listeners && r.listeners[id] == IntentTask(intent, existing)
      && ReadMeta(r.store, id) == ReadMeta(SaveMeta(s.store, id, IntentTask(intent, existing)), id)
      && r.log == s.log
  {
    var t := IntentTask(intent, existing);
    var s1 := s.(queue := s.queue + [t]);
    assert s1.queue[0] == t && s1.queue[1..] == [];
    ProcessNextStartsHead(s1);
    assert ProcessNext(s1).stopped == s.stopped by {
      var (s3, nid) := Submit(s1.(queue := [], uploading := true), t);
      assert ProcessNext(s1) == Attach(s3, nid, t, false);
    }
  }

  /** A retry timer firing at an idle service with nothing queued starts
      the next attempt of its task as a new transfer, and the timer is
      spent. */
  lemma RetryStartsNextAttempt(s: Service, t: RetryTimer)
    requires t in s.timers && s.engineReady && !s.uploading && s.queue == []
    requires FindExisting(s.store, t.task).None?
    ensures var r := Step(s, RetryFired(t)); var id := s.engine.nextId;
      && r.queue == [] && r.uploading && r.timers == s.timers - multiset{t}
      && r.engine.uploads == s.engine.uploads + [id]
      && id in r.listeners && r.listeners[id] == t.task
      && r.log == s.log
  {
    var s1 := s.(queue := s.queue + [t.task], timers := s.timers - multiset{t});
    assert s1.queue[0] == t.task && s1.queue[1..] == [];
    ProcessNextStartsHead(s1);
    assert ProcessNext(s1).timers == s1.timers by {
      var (s3, nid) := Submit(s1.(queue := [], uploading := true), t.task);
      assert ProcessNext(s1) == Attach(s3, nid, t.task, false);
    }
  }

  /** A task whose upload is already persisted under a transfer the engine
      still knows is re-attached to that transfer: no new upload starts. */
  lemma ProcessNextReattaches(s: Service)
    requires s.engineReady && !s.uploading && s.queue != []
    requires FindExisting(s.store, s.queue[0]).Some?
    requires var id := FindExisting(s.store, s.queue[0]).value;
      id in s.engine.transfers && id !in s.engine.lookupFailures && id !in s.engine.resumeFailures
    ensures var r := ProcessNext(s); var id := FindExisting(s.store, s.queue[0]).value;
      && r.queue == s.queue[1..] && r.uploading
      && r.engine.uploads == s.engine.uploads
      && id in r.active && id in r.listeners && r.listeners[id] == s.queue[0]
      && r.log == s.log
  {
    var t := s.queue[0];
    var id := FindExisting(s.store, t).value;
    var s1 := s.(queue := s.queue[1..], uploading := true);
    assert ProcessNext(s) == PerformUpload(s1, t);
    assert PerformUpload(s1, t) == AttachAndMaybeResume(s1, id, t);
    assert AttachAndMaybeResume(s1, id, t) == Attach(s1, id, t, true);
  }

  /** A persisted match the engine has forgotten loses its metadata, and
      the task is uploaded as a new transfer. */
  lemma ProcessNextReplacesForgotten(s: Service)
    requires s.engineReady && !s.uploading && s.queue != []
    requires FindExisting(s.store, s.queue[0]).Some?
    requires var id := FindExisting(s.store, s.queue[0]).value;
      id !in s.engine.transfers && id !in s.engine.lookupFailures
      && FindExisting(RemoveMeta(s.store, id), s.queue[0]).None?
    ensures var r := ProcessNext(s); var id := FindExisting(s.store, s.queue[0]).value;
      && r.engine.uploads == s.engine.uploads + [s.engine.nextId]
      && (id != s.engine.nextId ==> id !in r.store)
      && s.engine.nextId in r.listeners && r.listeners[s.engine.nextId] == s.queue[0]
  {
    var t := s.queue[0];
    var id := FindExisting(s.store, t).value;
    var s1 := s.(queue := s.queue[1..], uploading := true);
    var s2 := s1.(store := RemoveMeta(s.store, id));
    assert ProcessNext(s) == PerformUpload(s1, t);
    assert PerformUpload(s1, t) == AttachAndMaybeResume(s1, id, t);
    assert AttachAndMaybeResume(s1, id, t) == PerformUpload(s2, t);
    var (s3, nid) := Submit(s2, t);
    assert PerformUpload(s2, t) == Attach(s3, nid, t, false);
  }
}
