# Road-defect driver app: a Dafny model of its core

The driver app runs on an Android phone in a vehicle. It records a trip: camera video, phone GPS and IMU, and a stream of sensor frames from an ESP32 unit over Bluetooth Low Energy. Back at the depot it uploads the trip's files to S3. This project models the app's logic as immutable Dafny datatypes and pure functions, and proves what that logic guarantees.

| module | file | what it models |
|---|---|---|
| `Common` | common.dfy | `Option`, Kotlin's `Int`/`Long`/`Float` widths, truncating `/` and `%`, powers of two |
| `Text` | text.dfy | the string helpers the app uses: `trim`, `removePrefix`/`removeSuffix`, `replace("\"", "")`, decimal `toString`/`toIntOrNull`, `%02d` |
| `Models` | models.dfy | `Trip`, `UploadStatus`, `AppView`, `TripSummarySource`, `SensorStatus`, and status filters over trip lists |
| `BleConfig` | ble_config.dfy | the link constants: frame size, MTU, UUIDs, scan timeout and reconnect delay |
| `BlePacket` | ble_packet.dfy | the 44-byte little-endian sensor frame, its decoder, and the GNSS validity test on binary32 bit patterns |
| `BleService` | ble_service.dfy | the BLE link as a state record with one step function over scan, GATT, timer and payload events |
| `S3Metadata` | s3_metadata.dfy | the persisted transfer metadata (key, save/read round trip, dedup lookup), transfer-state filters and retry arithmetic |
| `S3UploadService` | s3_upload_service.dfy | the durable upload queue: FIFO, single upload slot, transfer engine as an oracle, retries, crash recovery |
| `AppViewModel` | app_view_model.dfy | the app-wide state: trip list, current trip, view, sensor and Wi-Fi flags |
| `TripSummaryScreen` | trip_summary_screen.dfy | the completion-counting broadcast receiver, upload gating, S3 keys, geofence stop, duration text |
| `UploadQueueScreen` | upload_queue_screen.dfy | the status partition, queue numbers, retry, recent completions, alert and empty state |
| `TripHistoryScreen` | trip_history_screen.dfy | the duration total, the "uploaded k/n" card, status badges, progress label |
| `RecordingScreen` | recording_screen.dfy | the record button, the ESP32 banner, the `hh:mm:ss` clock |
| `RecordingService` | recording_service.dfy | the recording service's start/stop guards, status ticks, command dispatch, notification clock |
| `FileManager` | file_manager.dfy | per-trip paths, trip listing and clean-up over a file tree, trip size, storage arithmetic |
| `WifiGateManager` | wifi_gate_manager.dfy | SSID clean-up and the gate's monitoring lifecycle |
| `PermissionsManager` | permissions_manager.dfy | the SDK-dependent permission list and the grant checks |

Platform callbacks become explicit events: BLE scan and GATT callbacks, transfer-engine events, timers, broadcasts, geofence changes. Each component has a step function from state and event to state. Clock readings, generated trip ids, file existence, the granted-permission set and the transfer engine's answers are parameters.

Trip ids are Kotlin `Long`s (`Models.TripId`). The trip-summary receiver reads the broadcast's trip id as a `String?` extra and compares it with the `Long` id; the model compares the id by value. `SensorStatus` carries a `bluetooth` flag, because `AppViewModel` reads and writes one. Binary32 floats are kept as their raw 32-bit patterns, and bytes are integers in 0..255.

## Model

| member | source | states |
|---|---|---|
| BleConfig.PacketSizeMatchesLayout | app/src/main/java/com/roaddefect/driverapp/ble/BleConfig.kt:49-52 | the 44-byte frame size is the documented layout: 1 + 1 + 2 header bytes, a 4-byte timestamp and nine 4-byte floats |
| BleConfig.FrameFitsOneNotification | app/src/main/java/com/roaddefect/driverapp/ble/BleConfig.kt:31-35 | a 44-byte frame fits in one notification under the requested MTU of 100, which carries at most MTU - 3 value bytes |
| BleConfig.ExpandUuid16 | app/src/main/java/com/roaddefect/driverapp/ble/BleConfig.kt:25-29 | expanding a 16-bit UUID into the Bluetooth Base UUID gives well-formed 8-4-4-4-12 text whose 16-bit slot reads back as the number |
| BleConfig.CccdIsStandardDescriptor | app/src/main/java/com/roaddefect/driverapp/ble/BleConfig.kt:25-29 | the configured CCCD UUID is the standard 0x2902 descriptor expanded with the Base UUID |
| BleConfig.ConfiguredUuidsWellFormed | app/src/main/java/com/roaddefect/driverapp/ble/BleConfig.kt:15-29 | the service, characteristic and CCCD UUIDs are all well-formed lower-case UUID text |
| BlePacket.PacketEqualsIsEquality | app/src/main/java/com/roaddefect/driverapp/ble/BlePacket.kt:6-15 | two packets are equal by `equals` exactly when their byte contents and receipt times are equal |
| BlePacket.SampleDeterminedByFields | app/src/main/java/com/roaddefect/driverapp/ble/BlePacket.kt:22-33 | a sample is determined by its timestamp and its nine float words |
| BlePacket.U32At | app/src/main/java/com/roaddefect/driverapp/ble/BlePacket.kt:66 | the unsigned little-endian reading of four bytes lies in 0 .. 2^32 - 1 |
| BlePacket.U32RoundTrip | app/src/main/java/com/roaddefect/driverapp/ble/BlePacket.kt:66-75 | reading back the four little-endian bytes of a 32-bit value gives the value |
| BlePacket.ParseHeader | app/src/main/java/com/roaddefect/driverapp/ble/BlePacket.kt:60-62 | the payload-length field read from bytes 2-3 is below 2^16 |
| BlePacket.ParseSamples | app/src/main/java/com/roaddefect/driverapp/ble/BlePacket.kt:52-79 | input shorter than 44 bytes decodes to the empty list; longer input to exactly one sample whose timestamp is the unsigned word at offset 4 and whose field k is the word at offset 8 + 4k |
| BlePacket.ParseEncode | app/src/main/java/com/roaddefect/driverapp/ble/BlePacket.kt:36-79 | decoding a frame encoded from a header and a sample returns that sample and that header |
| BlePacket.EncodeParse | app/src/main/java/com/roaddefect/driverapp/ble/BlePacket.kt:36-79 | re-encoding the decoded header and sample of a frame of 44 or more bytes reproduces its first 44 bytes |
| BlePacket.SampleWords | app/src/main/java/com/roaddefect/driverapp/ble/BlePacket.kt:67-75 | the sample's nine float words are the little-endian words of bytes 8-43, in order |
| BlePacket.ParseOnlyReadsPayload | app/src/main/java/com/roaddefect/driverapp/ble/BlePacket.kt:57-78 | two inputs that agree on bytes 4-43 decode to the same sample: the header bytes and anything past byte 43 never matter |
| BlePacket.EncodeDecodeWords | app/src/main/java/com/roaddefect/driverapp/ble/BlePacket.kt:67-75 | splitting bytes into little-endian words and encoding them again gives the bytes back |
| BlePacket.BitTestsMatchClasses | app/src/main/java/com/roaddefect/driverapp/ble/BlePacket.kt:85-88 | the bit tests used for `isFinite` and `== 0.0f` agree with the binary32 classes of section 3.4 of IEEE 754-2019: finite is zero, subnormal or normal, and equal-to-zero is +0 or -0 |
| BlePacket.ValidGnssByClass | app/src/main/java/com/roaddefect/driverapp/ble/BlePacket.kt:82-88 | `hasValidGnss` holds exactly when both coordinates are finite and not both zero |
| BlePacket.GnssExamples | app/src/main/java/com/roaddefect/driverapp/ble/BlePacket.kt:85-88 | a real fix is valid; (+0, +0), (-0, +0), a NaN latitude and an infinite longitude are invalid; one zero coordinate alone is valid |
| BleService.ScheduleReconnect | app/src/main/java/com/roaddefect/driverapp/ble/BleService.kt:260-276 | a reconnect request always leaves the latch set; while the latch is already set it changes nothing; otherwise it arms one job with the fixed 3000 ms delay, and it never touches the connection state |
| BleService.StartScan | app/src/main/java/com/roaddefect/driverapp/ble/BleService.kt:115-139 | a scan starts and one more scan-timeout timer is pending |
| BleService.OnStartConnection | app/src/main/java/com/roaddefect/driverapp/ble/BleService.kt:103-113 | a no-op while Connected or Connecting; otherwise the state becomes Connecting and a scan with its timeout starts, leaving the latch and any job alone |
| BleService.OnScanResult | app/src/main/java/com/roaddefect/driverapp/ble/BleService.kt:146-155 | the first result stops scanning, records the device and opens a GATT connection, without changing the state or the reconnect latch |
| BleService.OnScanFailed | app/src/main/java/com/roaddefect/driverapp/ble/BleService.kt:157-162 | a scan failure is `Error("Scan failed: <code>")` followed by a reconnect request |
| BleService.OnScanTimeout | app/src/main/java/com/roaddefect/driverapp/ble/BleService.kt:129-138 | the timeout stops scanning; only when still Connecting with no device recorded does it set `Error("Device not found")` and request a reconnect, otherwise state, latch and job are unchanged |
| BleService.OnGattConnected | app/src/main/java/com/roaddefect/driverapp/ble/BleService.kt:173-182 | GATT connected keeps the state as it is, clears the latch and cancels the pending job |
| BleService.OnGattDisconnected | app/src/main/java/com/roaddefect/driverapp/ble/BleService.kt:183-190 | GATT disconnected sets Disconnected, closes the handle and requests a reconnect |
| BleService.OnServicesDiscovered | app/src/main/java/com/roaddefect/driverapp/ble/BleService.kt:198-230 | a failed discovery changes nothing; success with the characteristic gives Connected and enables notifications, writing the descriptor only if it exists; a missing characteristic is `Error("Characteristic not found")` with a reconnect request |
| BleService.OnReconnectFired | app/src/main/java/com/roaddefect/driverapp/ble/BleService.kt:265-275 | the fired job is gone and the latch stays as it was; with a known device the state is Connecting and GATT reconnects directly, otherwise `startConnection` runs |
| BleService.OnDisconnect | app/src/main/java/com/roaddefect/driverapp/ble/BleService.kt:278-287 | disconnect cancels the job, clears the latch, closes the handle and sets Disconnected, keeping the emitted stream and the recorded device |
| BleService.OnPayload | app/src/main/java/com/roaddefect/driverapp/ble/BleService.kt:248-258 | a payload of exactly 44 bytes is appended to the stream as a packet with its receipt time; any other size is dropped with no change |
| BleService.InitialInv | app/src/main/java/com/roaddefect/driverapp/ble/BleService.kt:37-49 | the service starts Disconnected, with no latch and no job, and satisfies the link invariant |
| BleService.StepPreservesInv | app/src/main/java/com/roaddefect/driverapp/ble/BleService.kt:103-287 | every event keeps the invariant (a job exists only under the latch and always with the fixed 3000 ms delay; every emitted packet is 44 bytes) and only appends to the packet stream |
| BleService.PayloadPreservesInv | app/src/main/java/com/roaddefect/driverapp/ble/BleService.kt:248-258 | a payload keeps the invariant: only 44-byte packets enter the stream |
| BleService.RunPreservesInv | app/src/main/java/com/roaddefect/driverapp/ble/BleService.kt:103-287 | any sequence of events keeps the invariant and only appends to the packet stream |
| BleService.ConnectedOnlyByDiscovery | app/src/main/java/com/roaddefect/driverapp/ble/BleService.kt:198-230 | the state becomes Connected only through a successful discovery that found the characteristic |
| BleService.DiscoveryConnectsWithoutDescriptor | app/src/main/java/com/roaddefect/driverapp/ble/BleService.kt:204-223 | successful discovery with the characteristic yields Connected whether or not the CCCD descriptor exists, and without a descriptor nothing is written |
| BleService.StepKeepsLatch | app/src/main/java/com/roaddefect/driverapp/ble/BleService.kt:260-281 | with the latch set and no job pending, every event other than GATT connected and disconnect keeps it so |
| BleService.LatchBlocksReconnect | app/src/main/java/com/roaddefect/driverapp/ble/BleService.kt:260-281 | once the latch is set and its job has fired, no sequence of events without GATT connected or disconnect ever schedules another reconnect |
| BleService.OutOfRangeGivesUp | app/src/main/java/com/roaddefect/driverapp/ble/BleService.kt:260-276 | with the device out of range (start, scan timeout, reconnect, scan timeout) the link ends in `Error("Device not found")` with the latch set and no job pending: it stops retrying |
| BleService.StepRetrying | app/src/main/java/com/roaddefect/driverapp/ble/BleService.kt:260-276 | the corrected link behaves exactly as the service on every event except a fired reconnect job, which clears the latch as it runs |
| BleService.StepRetryingKeepsLatchExact | app/src/main/java/com/roaddefect/driverapp/ble/BleService.kt:260-276 | in the corrected link, every event keeps "latch set iff a job is pending" and the link invariant |
| BleService.StepKeepsLatchExact | app/src/main/java/com/roaddefect/driverapp/ble/BleService.kt:173-287 | every event other than a fired reconnect job keeps "latch set iff a job is pending" |
| BleService.FailureAlwaysRetries | app/src/main/java/com/roaddefect/driverapp/ble/BleService.kt:157-228 | in the corrected link, every step that moves into an error or into Disconnected, other than `disconnect()`, leaves a reconnect job pending with the fixed delay |
| BleService.OutOfRangeKeepsRetrying | app/src/main/java/com/roaddefect/driverapp/ble/BleService.kt:260-276 | in the corrected link the out-of-range scenario ends with another reconnect pending |
| S3Metadata.MetaKey | app/src/main/java/com/roaddefect/driverapp/services/S3UploadService.kt:382 | every metadata key starts with `transfer_meta_` |
| S3Metadata.ParseMetaKey | app/src/main/java/com/roaddefect/driverapp/services/S3UploadService.kt:360-363 | only keys that start with `transfer_meta_` parse to a transfer id |
| S3Metadata.MetaKeyRoundTrip | app/src/main/java/com/roaddefect/driverapp/services/S3UploadService.kt:360-382 | the key written for a transfer id parses back to that id |
| S3Metadata.MetaKeyInjective | app/src/main/java/com/roaddefect/driverapp/services/S3UploadService.kt:382 | two transfers never share a metadata key |
| S3Metadata.PrefKeysParse | app/src/main/java/com/roaddefect/driverapp/services/S3UploadService.kt:360-364 | scanning the preferences keys finds exactly the stored transfer ids: each key parses to a stored id and each stored id has its key |
| S3Metadata.NormalizeTripId | app/src/main/java/com/roaddefect/driverapp/services/S3UploadService.kt:379-397 | a trip id reads back only when it is non-blank and then unchanged; a null one reads as null |
| S3Metadata.SaveMeta | app/src/main/java/com/roaddefect/driverapp/services/S3UploadService.kt:375-383 | saving records the transfer id and leaves every other id's record as it was |
| S3Metadata.ReadMeta | app/src/main/java/com/roaddefect/driverapp/services/S3UploadService.kt:385-404 | a record reads back only for a stored id, never with a blank path or key, and never with a blank trip id |
| S3Metadata.RemoveMeta | app/src/main/java/com/roaddefect/driverapp/services/S3UploadService.kt:406-408 | removing drops exactly that id and keeps every other record |
| S3Metadata.SaveReadRoundTrip | app/src/main/java/com/roaddefect/driverapp/services/S3UploadService.kt:375-404 | reading saved metadata gives back the task, with a null or blank trip id read as null; a task with a blank path or key reads as absent |
| S3Metadata.SaveReadOther | app/src/main/java/com/roaddefect/driverapp/services/S3UploadService.kt:375-404 | saving under one transfer id changes nothing that another id reads |
| S3Metadata.ResaveIsInvisible | app/src/main/java/com/roaddefect/driverapp/services/S3UploadService.kt:385-404 | writing back what was read changes nothing that any id reads |
| S3Metadata.FindExisting | app/src/main/java/com/roaddefect/driverapp/services/S3UploadService.kt:359-373 | the lookup returns a stored id whose metadata names the same file, key and trip id, ignoring the attempt; it returns nothing exactly when no stored id matches |
| S3Metadata.SavedTaskIsFound | app/src/main/java/com/roaddefect/driverapp/services/S3UploadService.kt:359-383 | a task saved with a normalised trip id is found again by the dedup lookup |
| S3Metadata.BlankTripIdNeverMatches | app/src/main/java/com/roaddefect/driverapp/services/S3UploadService.kt:365-397 | a task whose trip id is present but blank never matches stored metadata, because a blank trip id reads back as null |
| S3Metadata.StateNameInjective | app/src/main/java/com/roaddefect/driverapp/services/S3UploadService.kt:243 | distinct transfer states have distinct names |
| S3Metadata.RecoveryFilters | app/src/main/java/com/roaddefect/driverapp/services/S3UploadService.kt:323-345 | recovery attaches exactly WAITING, IN_PROGRESS, RESUMED_WAITING, PAUSED, FAILED and WAITING_FOR_NETWORK, and resumes exactly PAUSED, FAILED and WAITING_FOR_NETWORK, a subset; a transfer with no state is not recoverable |
| S3Metadata.ShlOne | app/src/main/java/com/roaddefect/driverapp/services/S3UploadService.kt:213 | `1L shl n` is 2^n for 0 <= n < 63 |
| S3Metadata.RetryDelayDoubles | app/src/main/java/com/roaddefect/driverapp/services/S3UploadService.kt:211-213 | the retry delay is 4000 * 2^attempt ms and doubles with each attempt, with no `Long` overflow up to attempt 50 |
| S3Metadata.RetryDelaysUnderCeiling | app/src/main/java/com/roaddefect/driverapp/services/S3UploadService.kt:211-213 | the two retries the ceiling allows wait 4 s and then 8 s |
| S3Metadata.NextAttempt | app/src/main/java/com/roaddefect/driverapp/services/S3UploadService.kt:211 | `attempt + 1` in `Int` is the successor whenever it does not overflow |
| S3Metadata.RetryCeiling | app/src/main/java/com/roaddefect/driverapp/services/S3UploadService.kt:211-212 | a failure of attempt a is retried exactly when a < 2, that is when a + 1 < 3 |
| S3Metadata.ProgressPercent | app/src/main/java/com/roaddefect/driverapp/services/S3UploadService.kt:309-315 | there is no percentage when the total is not positive; for 0 <= current <= total with total < 2^52 it is the whole percentage p with p * total <= current * 100 < (p + 1) * total, so it lies in 0..100 |
| S3Metadata.ProgressPercentIsFloor | app/src/main/java/com/roaddefect/driverapp/services/S3UploadService.kt:311 | for 0 <= current <= total < 2^52 the percentage is the unique whole number p with p * total <= current * 100 < (p + 1) * total: the rounded-down share in percent |
| S3UploadService.EngineUpload | app/src/main/java/com/roaddefect/driverapp/services/S3UploadService.kt:202 | a new upload is a WAITING transfer under the engine's next id, appended to its uploads; below the top of the `Int` range that id belongs to no earlier transfer; every other transfer keeps its state and the engine stays consistent |
| S3UploadService.EngineResume | app/src/main/java/com/roaddefect/driverapp/services/S3UploadService.kt:325 | resuming puts that transfer in RESUMED_WAITING and leaves every other transfer's state unchanged |
| S3UploadService.EnginePause | app/src/main/java/com/roaddefect/driverapp/services/S3UploadService.kt:347-355 | pausing sets the given known transfers whose pause does not throw to PAUSED; a pause that throws is caught and leaves its transfer as it was, and so are the transfers not given |
| S3UploadService.GrowsTransitive | app/src/main/java/com/roaddefect/driverapp/services/S3UploadService.kt:410-427 | the "broadcasts only accumulate, the engine never forgets a transfer" relation composes |
| S3UploadService.ProcessNext | app/src/main/java/com/roaddefect/driverapp/services/S3UploadService.kt:165-179 | nothing happens while an upload runs; an empty queue stops the service only when no transfer is active; otherwise the head is uploaded; broadcasts only accumulate and the service invariant is kept |
| S3UploadService.PerformUpload | app/src/main/java/com/roaddefect/driverapp/services/S3UploadService.kt:181-205 | without an engine the task gets the failure broadcast "S3 Client not initialized", the slot is freed and the next task runs; with no persisted match a new transfer starts under the engine's next id; the invariant is kept |
| S3UploadService.Submit | app/src/main/java/com/roaddefect/driverapp/services/S3UploadService.kt:202-203 | a fresh upload gets the engine's next id, which no earlier transfer holds below the top of the `Int` range, and the task's metadata is stored under it |
| S3UploadService.AttachAndMaybeResume | app/src/main/java/com/roaddefect/driverapp/services/S3UploadService.kt:259-276 | re-attaching a persisted transfer keeps the invariant whether it fails, restarts the upload or attaches |
| S3UploadService.Attach | app/src/main/java/com/roaddefect/driverapp/services/S3UploadService.kt:278-332 | attaching saves the metadata, marks the id active and attached and registers the listener; a stalled transfer is resumed when asked; the invariant is kept |
| S3UploadService.RecordFailure | app/src/main/java/com/roaddefect/driverapp/services/S3UploadService.kt:207-231 | a failure forgets the transfer's metadata and ids and frees the slot; below the ceiling it arms one retry timer for attempt + 1 with delay 4000 * 2^attempt and broadcasts nothing; at the ceiling it broadcasts one failure and arms no timer |
| S3UploadService.RecordFailureKeepsInv | app/src/main/java/com/roaddefect/driverapp/services/S3UploadService.kt:207-231 | the failure bookkeeping keeps the service invariant |
| S3UploadService.HandleFailure | app/src/main/java/com/roaddefect/driverapp/services/S3UploadService.kt:207-231 | handling a failure keeps the service invariant and only appends broadcasts |
| S3UploadService.CompleteBookkeeping | app/src/main/java/com/roaddefect/driverapp/services/S3UploadService.kt:293-299 | the COMPLETED bookkeeping drops the id from the active and attached sets and its metadata, appends exactly one success broadcast with the task's trip id and key, frees the slot, and changes nothing else |
| S3UploadService.Complete | app/src/main/java/com/roaddefect/driverapp/services/S3UploadService.kt:293-301 | COMPLETED appends a success broadcast with the task's trip id and key and keeps the invariant; with nothing queued the transfer leaves the active and attached sets and the store, the slot stays free, and the service stops exactly when no other transfer is live |
| S3UploadService.PauseActive | app/src/main/java/com/roaddefect/driverapp/services/S3UploadService.kt:347-357 | without an engine nothing changes; otherwise every active transfer whose pause does not throw is paused, a throwing pause is caught and leaves its transfer as it was, and the slot is freed |
| S3UploadService.EnqueueKeepsInv | app/src/main/java/com/roaddefect/driverapp/services/S3UploadService.kt:148-154 | appending a well-formed task keeps the invariant |
| S3UploadService.StopKeepsInv | app/src/main/java/com/roaddefect/driverapp/services/S3UploadService.kt:136-141 | a stop request keeps the invariant |
| S3UploadService.IntentTask | app/src/main/java/com/roaddefect/driverapp/services/S3UploadService.kt:144-151 | an accepted request becomes a well-formed task at attempt 0 |
| S3UploadService.OnStartCommand | app/src/main/java/com/roaddefect/driverapp/services/S3UploadService.kt:133-163 | `ACTION_STOP` empties the queue and answers not-sticky; with an engine it pauses the active transfers whose pause does not throw, leaves every other transfer as it was and frees the slot; an upload request with a non-blank path and key of an existing file is appended to the queue, which is then served; any other request changes nothing; the answer is otherwise sticky |
| S3UploadService.Step | app/src/main/java/com/roaddefect/driverapp/services/S3UploadService.kt:289-321 | a retry timer that is not pending changes nothing; a pending one is spent and re-enqueues its task, which waits while an upload runs and is otherwise served; events for transfers without a listener broadcast nothing; COMPLETED for a listened transfer broadcasts its trip id and key |
| S3UploadService.StepPreservesInv | app/src/main/java/com/roaddefect/driverapp/services/S3UploadService.kt:207-332 | every engine event and retry timer keeps the invariant: the active and attached sets agree, every live transfer has metadata and is known to the engine, and every queued, timed or listened task is well formed |
| S3UploadService.StateChangedPreservesInv | app/src/main/java/com/roaddefect/driverapp/services/S3UploadService.kt:290-307 | a state change keeps the invariant |
| S3UploadService.RetryFiredPreservesInv | app/src/main/java/com/roaddefect/driverapp/services/S3UploadService.kt:220-223 | a fired retry timer keeps the invariant |
| S3UploadService.Run | app/src/main/java/com/roaddefect/driverapp/services/S3UploadService.kt:165-332 | over any sequence of events broadcasts only accumulate and the engine forgets no transfer |
| S3UploadService.RunPreservesInv | app/src/main/java/com/roaddefect/driverapp/services/S3UploadService.kt:165-332 | any sequence of events keeps the invariant |
| S3UploadService.Create | app/src/main/java/com/roaddefect/driverapp/services/S3UploadService.kt:66-83 | a new service has an empty queue, a free slot, no active transfer, no broadcast and no timer, and satisfies the invariant over consistent persisted state |
| S3UploadService.RecoverEach | app/src/main/java/com/roaddefect/driverapp/services/S3UploadService.kt:241-249 | the recovery loop only appends broadcasts and keeps the invariant |
| S3UploadService.Restart | app/src/main/java/com/roaddefect/driverapp/services/S3UploadService.kt:74-83 | without an engine nothing is recovered; otherwise recovery runs and the invariant holds |
| S3UploadService.AttachKeepsRecoverable | app/src/main/java/com/roaddefect/driverapp/services/S3UploadService.kt:241-287 | attaching one recovered transfer changes neither the metadata another id reads nor whether it is recoverable |
| S3UploadService.RecoverOne | app/src/main/java/com/roaddefect/driverapp/services/S3UploadService.kt:241-249 | recovery attaches a recoverable id with the task its metadata records, and leaves the rest of the loop reading the same data |
| S3UploadService.AttachWithoutFailure | app/src/main/java/com/roaddefect/driverapp/services/S3UploadService.kt:278-332 | a resumed attachment that does not throw registers the listener and broadcasts nothing |
| S3UploadService.RecoverAttaches | app/src/main/java/com/roaddefect/driverapp/services/S3UploadService.kt:234-257 | when no resume throws, recovery attaches exactly the transfers in a recoverable state with readable metadata, and broadcasts nothing |
| S3UploadService.RecoverKeepsOtherListeners | app/src/main/java/com/roaddefect/driverapp/services/S3UploadService.kt:234-257 | recovery leaves the listeners of ids it does not recover alone |
| S3UploadService.RecoverListens | app/src/main/java/com/roaddefect/driverapp/services/S3UploadService.kt:234-257 | recovery gives each recovered transfer a listener for the task its metadata records |
| S3UploadService.RecoveredStep | app/src/main/java/com/roaddefect/driverapp/services/S3UploadService.kt:241-249 | the recovered ids of the loop are its first id, if recoverable, plus those of the rest |
| S3UploadService.NoEngineFailures | app/src/main/java/com/roaddefect/driverapp/services/S3UploadService.kt:186-193 | one "S3 Client not initialized" failure broadcast per queued task, in queue order |
| S3UploadService.NoEngineFailsEveryTask | app/src/main/java/com/roaddefect/driverapp/services/S3UploadService.kt:165-193 | without an engine a free slot works through the whole queue and broadcasts one failure per task, in queue order |
| S3UploadService.NoEngineDrainsQueue | app/src/main/java/com/roaddefect/driverapp/services/S3UploadService.kt:165-193 | without an engine the queue ends empty and no retry timer is armed |
| S3UploadService.NoEngineStep | app/src/main/java/com/roaddefect/driverapp/services/S3UploadService.kt:186-193 | without an engine one turn drops the queue head with exactly one failure broadcast |
| S3UploadService.ProcessNextStartsHead | app/src/main/java/com/roaddefect/driverapp/services/S3UploadService.kt:165-205 | a free slot takes the queue head; with no persisted match it becomes a WAITING transfer under the engine's next id, with metadata saved, id active and attached, and its listener registered |
| S3UploadService.ProcessNextReattaches | app/src/main/java/com/roaddefect/driverapp/services/S3UploadService.kt:259-271 | a head whose upload is persisted under a transfer the engine still knows is re-attached to it: no new upload starts and nothing is broadcast |
| S3UploadService.ProcessNextReplacesForgotten | app/src/main/java/com/roaddefect/driverapp/services/S3UploadService.kt:265-270 | a persisted match the engine no longer knows loses its metadata, and the task starts as a new transfer with its listener |
| S3UploadService.OnStartCommandStartsUpload | app/src/main/java/com/roaddefect/driverapp/services/S3UploadService.kt:133-205 | an accepted request reaching an idle service with an empty queue starts at once as a WAITING transfer under an id no earlier transfer holds, active with the request's task as its listener and its metadata saved, and nothing is broadcast |
| S3UploadService.RetryStartsNextAttempt | app/src/main/java/com/roaddefect/driverapp/services/S3UploadService.kt:220-223 | a pending retry timer firing at an idle service with an empty queue is spent and its task, at the next attempt, starts as a new transfer with its listener; nothing is broadcast |
| AppViewModel.Initial | app/src/main/java/com/roaddefect/driverapp/AppViewModel.kt:23-72 | the app starts on the dashboard, not recording, with no current trip, no trips, in preview mode, summary source FROM_RECORDING and the link Disconnected |
| AppViewModel.UpdateSensorStatus | app/src/main/java/com/roaddefect/driverapp/AppViewModel.kt:144-158 | the bluetooth flag is raised exactly when the link state is Connected; the other flags are the probes' answers and nothing else in the view model changes |
| AppViewModel.OnBleState | app/src/main/java/com/roaddefect/driverapp/AppViewModel.kt:106-158 | after a link-state update the view model records the state and the bluetooth flag is raised exactly when it is Connected |
| AppViewModel.UnquoteSsid | app/src/main/java/com/roaddefect/driverapp/AppViewModel.kt:132 | removing every double quote from a quoted SSID gives back the unquoted name |
| AppViewModel.WifiFlagOnDepot | app/src/main/java/com/roaddefect/driverapp/AppViewModel.kt:132-135 | the Wi-Fi flag is raised for "AndroidWifi", quoted as Android reports it or not |
| AppViewModel.WifiFlagOffElsewhere | app/src/main/java/com/roaddefect/driverapp/AppViewModel.kt:132-137 | the flag is down for a missing SSID and for a longer name such as "AndroidWifi-5G" |
| AppViewModel.WifiFlagMeansDepot | app/src/main/java/com/roaddefect/driverapp/AppViewModel.kt:132-135 | a raised flag means the SSID, apart from its double quotes, holds exactly the characters of "AndroidWifi" |
| AppViewModel.StartRecording | app/src/main/java/com/roaddefect/driverapp/AppViewModel.kt:179-200 | recording starts on the recording screen with a new current trip under the given id (or the clock's) with duration 0, coverage 0, status PENDING, the vehicle id and route "ROUTE-A12"; the trip list is untouched |
| AppViewModel.OnRecordingStatus | app/src/main/java/com/roaddefect/driverapp/AppViewModel.kt:164-170 | the recording service's status stream sets the elapsed time and the recording flag and nothing else |
| AppViewModel.ElapsedSeconds | app/src/main/java/com/roaddefect/driverapp/AppViewModel.kt:226 | the duration is the elapsed milliseconds in whole seconds, truncated: r * 1000 <= ms < (r + 1) * 1000 while it fits an `Int` |
| AppViewModel.CompleteJourney | app/src/main/java/com/roaddefect/driverapp/AppViewModel.kt:220-240 | without a current trip nothing changes; otherwise the trip with its duration, distance and status PENDING is prepended to the unchanged list and made current, recording stops, and the summary opens FROM_RECORDING |
| AppViewModel.SetCurrentTrip | app/src/main/java/com/roaddefect/driverapp/AppViewModel.kt:242-245 | picking a trip makes it current with source FROM_QUEUE and changes nothing else |
| AppViewModel.NavigateToView | app/src/main/java/com/roaddefect/driverapp/AppViewModel.kt:251-257 | the view changes; going to the dashboard also clears the current trip and resets the source to FROM_RECORDING; any other view changes only the view |
| AppViewModel.SetIsPreviewMode | app/src/main/java/com/roaddefect/driverapp/AppViewModel.kt:270-272 | only the preview flag changes |
| AppViewModel.ReplaceById | app/src/main/java/com/roaddefect/driverapp/AppViewModel.kt:260 | the list keeps its length and order; exactly the entries with the argument's id are replaced by it and all others stay |
| AppViewModel.UpdateTrip | app/src/main/java/com/roaddefect/driverapp/AppViewModel.kt:259-265 | the list's entries with the trip's id are replaced; the current trip is replaced only when the ids match; nothing else changes |
| AppViewModel.UpdateTripKeepsIds | app/src/main/java/com/roaddefect/driverapp/AppViewModel.kt:259-265 | updating keeps every list position's id, and updating twice with the same trip is the same as once |
| AppViewModel.PendingUploads | app/src/main/java/com/roaddefect/driverapp/AppViewModel.kt:274-275 | the pending count never exceeds the number of trips |
| AppViewModel.PendingPlusUploaded | app/src/main/java/com/roaddefect/driverapp/AppViewModel.kt:274-275 | pending and completed trips together account for the whole list |
| AppViewModel.CompleteJourneyAddsPending | app/src/main/java/com/roaddefect/driverapp/AppViewModel.kt:220-275 | finishing a journey adds exactly one pending upload |
| Models.CountStatus | app/src/main/java/com/roaddefect/driverapp/ui/screens/TripHistoryScreen.kt:28 | the number of trips with a status never exceeds the list's length |
| Models.FilterStatus | app/src/main/java/com/roaddefect/driverapp/ui/screens/UploadQueueScreen.kt:28-31 | the filtered list holds exactly the list's trips with the status, and is no longer than the list |
| Models.FilterCount | app/src/main/java/com/roaddefect/driverapp/ui/screens/UploadQueueScreen.kt:28-31 | a filtered list is as long as the count of its status |
| Models.FilterIsSubsequence | app/src/main/java/com/roaddefect/driverapp/ui/screens/UploadQueueScreen.kt:28-31 | a filtered list keeps the list's order |
| Models.CountComplement | app/src/main/java/com/roaddefect/driverapp/AppViewModel.kt:275 | the counts of a status and of its complement add up to the list's length |
| FileManager.FileName | app/src/main/java/com/roaddefect/driverapp/utils/FileManager.kt:12-19 | every per-trip file name is a non-empty name without '/' |
| FileManager.FileNamesDistinct | app/src/main/java/com/roaddefect/driverapp/utils/FileManager.kt:12-19 | the eight file names are pairwise distinct |
| FileManager.ChildIndex | app/src/main/java/com/roaddefect/driverapp/utils/FileManager.kt:21-70 | the look-up finds the first entry with the name, and finds none exactly when no entry has it |
| FileManager.GetTripDirectory | app/src/main/java/com/roaddefect/driverapp/utils/FileManager.kt:21-26 | the trip folder is `<externalFilesDir>/<tripId decimal>`; afterwards it exists; an existing entry is left as it is, otherwise one new empty folder is added |
| FileManager.GetTripFile | app/src/main/java/com/roaddefect/driverapp/utils/FileManager.kt:28-66 | each per-trip getter creates the trip folder and returns `<externalFilesDir>/<tripId>/<fixed name>` |
| FileManager.SplitAtSlash | app/src/main/java/com/roaddefect/driverapp/utils/FileManager.kt:21-66 | names without '/' joined by '/' split back uniquely |
| FileManager.JoinCancel | app/src/main/java/com/roaddefect/driverapp/utils/FileManager.kt:28-66 | paths under one folder differ when the names do |
| FileManager.NestedJoinCancel | app/src/main/java/com/roaddefect/driverapp/utils/FileManager.kt:28-66 | two-level paths whose middle names have no '/' determine both names |
| FileManager.TripFilePathInjective | app/src/main/java/com/roaddefect/driverapp/utils/FileManager.kt:21-66 | different trips or different file kinds never share a path |
| FileManager.TripFilePathsDistinct | app/src/main/java/com/roaddefect/driverapp/utils/FileManager.kt:21-66 | the files the getters return for different trips or different kinds are different files |
| FileManager.Insert | app/src/main/java/com/roaddefect/driverapp/utils/FileManager.kt:72-124 | inserting into a list sorted by last-modified time keeps it sorted and adds exactly that entry |
| FileManager.SortBy | app/src/main/java/com/roaddefect/driverapp/utils/FileManager.kt:72-124 | `sortedBy` / `sortedByDescending` on last-modified time returns a sorted permutation of its input |
| FileManager.Subdirectories | app/src/main/java/com/roaddefect/driverapp/utils/FileManager.kt:72 | the listing keeps exactly the folder's directories, each under its own path |
| FileManager.ListNewestFirst | app/src/main/java/com/roaddefect/driverapp/utils/FileManager.kt:72 | the directories of a folder, newest first, as a permutation of its directory entries |
| FileManager.GetAllTrips | app/src/main/java/com/roaddefect/driverapp/utils/FileManager.kt:68-73 | only directories of `<externalFilesDir>/trips` are listed, newest first, each under its own path, and the list is empty when that folder is missing |
| FileManager.TripsFolder | app/src/main/java/com/roaddefect/driverapp/utils/FileManager.kt:69-72 | the trips folder is the directory named `trips` directly in the external files directory, when there is one |
| FileManager.SplitSorted | app/src/main/java/com/roaddefect/driverapp/utils/FileManager.kt:124-125 | in a list sorted oldest first, every entry before a cut is no newer than every entry after it |
| FileManager.TakeOldest | app/src/main/java/com/roaddefect/driverapp/utils/FileManager.kt:124-125 | the min(count, n) entries taken are no newer than every entry left, and together they are the whole list |
| FileManager.RemoveListed | app/src/main/java/com/roaddefect/driverapp/utils/FileManager.kt:75-126 | deleting keeps exactly the entries not among those taken |
| FileManager.FilterChildren | app/src/main/java/com/roaddefect/driverapp/utils/FileManager.kt:126 | the entries kept are exactly those not deleted |
| FileManager.CleanupOldestTrips | app/src/main/java/com/roaddefect/driverapp/utils/FileManager.kt:122-129 | a negative count fails, as `take` throws; otherwise nothing changes when the trips folder is missing, and else only that folder changes: an entry stays exactly when its path is not among the `count` oldest listed trips |
| FileManager.CleanupDeletesOldest | app/src/main/java/com/roaddefect/driverapp/utils/FileManager.kt:122-129 | with uniquely named trip folders, clean-up deletes min(count, number of trips) listed trips, none newer than a kept one, and a listed trip survives exactly when it is not among them |
| FileManager.TripDirectoryNotInTripsFolder | app/src/main/java/com/roaddefect/driverapp/utils/FileManager.kt:21-69 | a trip folder's path never lies under `<externalFilesDir>/trips/` |
| FileManager.GetAllTripsMissesTripDirectory | app/src/main/java/com/roaddefect/driverapp/utils/FileManager.kt:21-73 | a folder made by `getTripDirectory` is never among the folders `getAllTrips` lists |
| FileManager.CleanupKeepsTripDirectory | app/src/main/java/com/roaddefect/driverapp/utils/FileManager.kt:122-129 | `cleanupOldestTrips`, for any count, leaves a folder made by `getTripDirectory` in place |
| FileManager.GetAllTripsFixed | app/src/main/java/com/roaddefect/driverapp/utils/FileManager.kt:68-73 | the corrected listing returns the directories directly in the external files directory, newest first |
| FileManager.GetAllTripsFixedFindsTripDirectory | app/src/main/java/com/roaddefect/driverapp/utils/FileManager.kt:21-73 | the corrected listing finds every folder `getTripDirectory` made |
| FileManager.SumConcat | app/src/main/java/com/roaddefect/driverapp/utils/FileManager.kt:90 | the sum of two concatenated lists is the sum of the sums |
| FileManager.TreeSizeIsSumOfFiles | app/src/main/java/com/roaddefect/driverapp/utils/FileManager.kt:86-91 | the size of a tree is the sum of the lengths of the regular files the walk visits |
| FileManager.ForestSum | app/src/main/java/com/roaddefect/driverapp/utils/FileManager.kt:86-91 | the size of a folder's entries is the sum over their visited files |
| FileManager.GetTripSize | app/src/main/java/com/roaddefect/driverapp/utils/FileManager.kt:86-91 | the trip size is the sum of the lengths of all regular files in the tree while it fits a `Long` |
| FileManager.AvailableStorageBytes | app/src/main/java/com/roaddefect/driverapp/utils/FileManager.kt:93-97 | 0 without a storage directory; otherwise available blocks times block size while it fits a `Long` |
| FileManager.AvailableStoragePercentage | app/src/main/java/com/roaddefect/driverapp/utils/FileManager.kt:99-107 | 0 without a storage directory or for an empty volume; otherwise the available share in whole percent, in 0..100, rounded down |
| FileManager.RequiredBytes | app/src/main/java/com/roaddefect/driverapp/utils/FileManager.kt:111 | `requiredMinutes * 100L * 1024L * 1024L` is exact in `Long` for every `Int` count |
| FileManager.DefaultRecordingNeed | app/src/main/java/com/roaddefect/driverapp/utils/FileManager.kt:109-114 | with the default 30 minutes there is enough storage exactly when at least 3000 MiB are available |
| FileManager.EstimatedTripsRemaining | app/src/main/java/com/roaddefect/driverapp/utils/FileManager.kt:116-120 | a zero trip size fails, as the division throws; otherwise the estimate is the whole number of trips of that size that fit, r * size <= available < (r + 1) * size, while it fits an `Int` |
| WifiGateManager.Create | app/src/main/java/com/roaddefect/driverapp/utils/WifiGateManager.kt:11-35 | a new gate holds the default status (ssid "Unknown", not passed), no timestamps, and is not monitoring |
| WifiGateManager.CleanSsid | app/src/main/java/com/roaddefect/driverapp/utils/WifiGateManager.kt:37-38 | the cleaned SSID is a slice of the trimmed input that drops at most one character at each end |
| WifiGateManager.StripQuotesIsSlice | app/src/main/java/com/roaddefect/driverapp/utils/WifiGateManager.kt:38 | removing one leading and one trailing quote keeps a slice of the text that drops at most one character at each end |
| WifiGateManager.CleanSsidQuoted | app/src/main/java/com/roaddefect/driverapp/utils/WifiGateManager.kt:37-38 | a trimmed input of the form '"' + s + '"' cleans to s |
| WifiGateManager.CleanSsidUnquoted | app/src/main/java/com/roaddefect/driverapp/utils/WifiGateManager.kt:37-38 | a trimmed input that neither starts nor ends with '"' is returned as trimmed |
| WifiGateManager.CleanSsidStripsOnce | app/src/main/java/com/roaddefect/driverapp/utils/WifiGateManager.kt:37-38 | only one quote is removed at each end: a doubly quoted name keeps one pair |
| WifiGateManager.TrimNoEdges | app/src/main/java/com/roaddefect/driverapp/utils/WifiGateManager.kt:38 | text with no whitespace at either end trims to itself |
| WifiGateManager.StartMonitoring | app/src/main/java/com/roaddefect/driverapp/utils/WifiGateManager.kt:40-41 | the status becomes the default record except that the gate is passed; timestamps and the monitoring flag are unchanged |
| WifiGateManager.StopMonitoring | app/src/main/java/com/roaddefect/driverapp/utils/WifiGateManager.kt:115-119 | both timestamps are cleared and monitoring stops, with the status unchanged |
| WifiGateManager.Reset | app/src/main/java/com/roaddefect/driverapp/utils/WifiGateManager.kt:121-125 | the default status (ssid "Unknown", gate not passed) is restored and both timestamps are cleared |
| WifiGateManager.GateLifecycle | app/src/main/java/com/roaddefect/driverapp/utils/WifiGateManager.kt:115-125 | starting twice is starting once; stopping keeps a passed gate passed; reset always closes the gate; reset is idempotent |
| PermissionsManager.RequiredPermissions | app/src/main/java/com/roaddefect/driverapp/utils/PermissionsManager.kt:11-27 | the list always begins CAMERA, FINE_LOCATION, COARSE_LOCATION, NETWORK_STATE, WIFI_STATE; POST_NOTIFICATIONS is in it iff SDK >= 33; BLUETOOTH_SCAN and BLUETOOTH_CONNECT iff SDK >= 31; no entry repeats |
| PermissionsManager.NotGranted | app/src/main/java/com/roaddefect/driverapp/utils/PermissionsManager.kt:72-76 | the filter keeps exactly the listed permissions that are not granted |
| PermissionsManager.MissingPermissions | app/src/main/java/com/roaddefect/driverapp/utils/PermissionsManager.kt:72-76 | the missing permissions are exactly the required ones that are not granted |
| PermissionsManager.NotGrantedIsSubsequence | app/src/main/java/com/roaddefect/driverapp/utils/PermissionsManager.kt:73-75 | the filter keeps the list's order |
| PermissionsManager.MissingInRequiredOrder | app/src/main/java/com/roaddefect/driverapp/utils/PermissionsManager.kt:72-76 | the missing list is an order-preserving sub-list of the required list |
| PermissionsManager.HasAllIffNoneMissing | app/src/main/java/com/roaddefect/driverapp/utils/PermissionsManager.kt:45-76 | all permissions are held exactly when none is missing |
| PermissionsManager.AllIncludesBluetooth | app/src/main/java/com/roaddefect/driverapp/utils/PermissionsManager.kt:29-49 | holding every required permission implies the Bluetooth check passes, on every SDK level |
| Text.Trim | app/src/main/java/com/roaddefect/driverapp/utils/WifiGateManager.kt:38 | trimming removes exactly the leading and trailing whitespace: the result has none at either end and sits between a blank prefix and a blank suffix; it is empty iff the input is blank |
| Text.TrimIdempotent | app/src/main/java/com/roaddefect/driverapp/utils/WifiGateManager.kt:38 | trimming twice is trimming once |
| Text.RemovePrefix | app/src/main/java/com/roaddefect/driverapp/utils/WifiGateManager.kt:38 | `removePrefix` drops the prefix when present and otherwise returns the input |
| Text.RemoveSuffix | app/src/main/java/com/roaddefect/driverapp/utils/WifiGateManager.kt:38 | `removeSuffix` drops the suffix when present and otherwise returns the input |
| Text.RemoveAll | app/src/main/java/com/roaddefect/driverapp/AppViewModel.kt:132 | `replace("\"", "")` leaves no quote and keeps every other character with its multiplicity |
| Text.RemoveAllAbsent | app/src/main/java/com/roaddefect/driverapp/AppViewModel.kt:132 | text without quotes is unchanged |
| Text.RemoveAllConcat | app/src/main/java/com/roaddefect/driverapp/AppViewModel.kt:132 | removing quotes distributes over concatenation |
| Text.NatToDecimal | app/src/main/java/com/roaddefect/driverapp/utils/FileManager.kt:22 | the decimal text of a number is non-empty, all digits, and has no leading zero |
| Text.DecimalRoundTrip | app/src/main/java/com/roaddefect/driverapp/utils/FileManager.kt:22 | the decimal text reads back as the number |
| Text.NatToDecimalInjective | app/src/main/java/com/roaddefect/driverapp/utils/FileManager.kt:22 | distinct numbers have distinct decimal texts |
| Text.IntToDecimal | app/src/main/java/com/roaddefect/driverapp/utils/FileManager.kt:22 | `toString` of an integer is its magnitude's decimal text, with '-' in front when negative |
| Text.IntToDecimalInjective | app/src/main/java/com/roaddefect/driverapp/utils/FileManager.kt:22 | distinct trip ids have distinct decimal texts, so distinct trips get distinct folders |
| Text.ToIntOrNull | app/src/main/java/com/roaddefect/driverapp/services/S3UploadService.kt:363 | `toIntOrNull` succeeds only on non-empty text, and on digits gives their value |
| Text.IntDecimalRoundTrip | app/src/main/java/com/roaddefect/driverapp/services/S3UploadService.kt:363-382 | the decimal text of any `Int` parses back to it |
| Text.NegativeRoundTrip | app/src/main/java/com/roaddefect/driverapp/services/S3UploadService.kt:363-382 | a negative `Int` written with its '-' parses back to it |
| Text.Pad2 | app/src/main/java/com/roaddefect/driverapp/ui/screens/RecordingScreen.kt:448 | `%02d` gives at least two characters, all digits with the number's value for non-negative input, and a leading '-' for negative input |
| TripSummaryScreen.Open | app/src/main/java/com/roaddefect/driverapp/ui/screens/TripSummaryScreen.kt:107-113 | the screen takes the current trip, starts with the flag down and the counter at zero, and starts the Wi-Fi monitor |
| TripSummaryScreen.OpenedGatesFollowGeofence | app/src/main/java/com/roaddefect/driverapp/ui/screens/TripSummaryScreen.kt:107-113 | once the screen has started monitoring, the Wi-Fi gate counts as passed, so the upload gates are ready exactly when the phone is inside the geofence |
| TripSummaryScreen.OnReceiveWith | app/src/main/java/com/roaddefect/driverapp/ui/screens/TripSummaryScreen.kt:58-89 | a broadcast for another trip changes nothing; a failure marks the trip failed, lowers the flag and resets the counter; a completion below the target only counts; the completion that reaches the target marks the trip completed and resets the counter |
| TripSummaryScreen.OnReceive | app/src/main/java/com/roaddefect/driverapp/ui/screens/TripSummaryScreen.kt:55-89 | the receiver as written keeps its counter between 0 and the three-file target |
| TripSummaryScreen.ReceiverIgnoresKey | app/src/main/java/com/roaddefect/driverapp/ui/screens/TripSummaryScreen.kt:63-72 | a completion counts the same whatever object key it reports |
| TripSummaryScreen.RunReceive | app/src/main/java/com/roaddefect/driverapp/ui/screens/TripSummaryScreen.kt:58-89 | a run of broadcasts never changes which trip the screen shows |
| TripSummaryScreen.Completions | app/src/main/java/com/roaddefect/driverapp/ui/screens/TripSummaryScreen.kt:63-72 | one completion broadcast per object key, all for the given trip, in key order |
| TripSummaryScreen.CompletionsBelowTarget | app/src/main/java/com/roaddefect/driverapp/ui/screens/TripSummaryScreen.kt:63-76 | fewer completions than the counter still needs leave the trip list alone and raise the counter by their number |
| TripSummaryScreen.CompletionsReachTarget | app/src/main/java/com/roaddefect/driverapp/ui/screens/TripSummaryScreen.kt:63-76 | exactly the missing number of completions marks the trip completed and resets the counter |
| TripSummaryScreen.UploadKeysDistinct | app/src/main/java/com/roaddefect/driverapp/ui/screens/TripSummaryScreen.kt:503-522 | the key `trips/<id>/<file>` determines both the trip and the file |
| TripSummaryScreen.UploadKeysOfFilesDiffer | app/src/main/java/com/roaddefect/driverapp/ui/screens/TripSummaryScreen.kt:503-522 | two files of one trip never share an object key |
| TripSummaryScreen.UploadRequests | app/src/main/java/com/roaddefect/driverapp/ui/screens/TripSummaryScreen.kt:498-525 | the button enqueues three uploads with a video and two without; every upload carries the trip id; the GPS and IMU files come last; the video is enqueued exactly when it exists |
| TripSummaryScreen.UploadRequestKeysDistinct | app/src/main/java/com/roaddefect/driverapp/ui/screens/TripSummaryScreen.kt:498-525 | the enqueued object keys are pairwise distinct |
| TripSummaryScreen.CreatedFiles | app/src/main/java/com/roaddefect/driverapp/ui/screens/TripSummaryScreen.kt:475-494 | a CSV file that holds only its header is created exactly for each missing GPS or IMU file, and no other file is created |
| TripSummaryScreen.StartUpload | app/src/main/java/com/roaddefect/driverapp/ui/screens/TripSummaryScreen.kt:462-529 | the button raises the flag, resets the counter, marks the current trip uploading, creates the missing CSV files and enqueues the uploads |
| TripSummaryScreen.StartUploadKeysDistinct | app/src/main/java/com/roaddefect/driverapp/ui/screens/TripSummaryScreen.kt:462-529 | no two uploads the button enqueues share an object key |
| TripSummaryScreen.TwoFileUploadNeverCompletes | app/src/main/java/com/roaddefect/driverapp/ui/screens/TripSummaryScreen.kt:55-89 | without a video only two uploads are enqueued, and their two completions leave the trip uploading with the counter at 2 |
| TripSummaryScreen.OnReceiveFixed | app/src/main/java/com/roaddefect/driverapp/ui/screens/TripSummaryScreen.kt:58-89 | the corrected receiver, which waits for as many completions as uploads were enqueued, also ignores other trips' broadcasts |
| TripSummaryScreen.FixedUploadCompletes | app/src/main/java/com/roaddefect/driverapp/ui/screens/TripSummaryScreen.kt:462-529 | with the corrected target, one completion per enqueued upload marks the trip completed, with or without a video |
| TripSummaryScreen.OnGeofenceChange | app/src/main/java/com/roaddefect/driverapp/ui/screens/TripSummaryScreen.kt:115-124 | the stop is sent exactly when the phone leaves the geofence while an upload runs, and then only the flag changes, to false |
| TripSummaryScreen.ReturnToDashboard | app/src/main/java/com/roaddefect/driverapp/ui/screens/TripSummaryScreen.kt:551-556 | the dashboard shows with no current trip and the same trip list; the Wi-Fi gate keeps its status and forgets its timestamps |
| TripSummaryScreen.DurationParts | app/src/main/java/com/roaddefect/driverapp/ui/screens/TripSummaryScreen.kt:601-603 | for a non-negative count, whole hours and minutes of 0..59 with at most 59 seconds left over; for a negative count both parts are at most zero |
| TripSummaryScreen.FormatDuration | app/src/main/java/com/roaddefect/driverapp/ui/screens/TripSummaryScreen.kt:601-609 | the text ends with "m"; with whole hours it is "<hours>h <minutes>m", under an hour just "<minutes>m" |
| TripSummaryScreen.FormatDurationReadsBack | app/src/main/java/com/roaddefect/driverapp/ui/screens/TripSummaryScreen.kt:601-609 | from an hour on, the text is two digit fields, a positive hour count and minutes under 60, that rebuild the duration to the minute |
| TripSummaryScreen.FormatMs | app/src/main/java/com/roaddefect/driverapp/ui/screens/TripSummaryScreen.kt:611-614 | the text ends with "s", and for a non-negative count its digits are the whole seconds of the milliseconds |
| TripSummaryScreen.WholeSeconds | app/src/main/java/com/roaddefect/driverapp/ui/screens/TripSummaryScreen.kt:612 | the decimal of the milliseconds divided by 1000 reads back as the whole seconds they contain |
| UploadQueueScreen.Partition | app/src/main/java/com/roaddefect/driverapp/ui/screens/UploadQueueScreen.kt:28-31 | each section holds exactly the trips of the list with its status |
| UploadQueueScreen.FourCounts | app/src/main/java/com/roaddefect/driverapp/ui/screens/UploadQueueScreen.kt:28-31 | the four status counts add up to the list's length |
| UploadQueueScreen.PartitionIsExact | app/src/main/java/com/roaddefect/driverapp/ui/screens/UploadQueueScreen.kt:28-31 | the four section sizes add up to the list's length, and each section keeps the list's order |
| UploadQueueScreen.QueuePositions | app/src/main/java/com/roaddefect/driverapp/ui/screens/UploadQueueScreen.kt:169-170 | the i-th pending card is the i-th pending trip and carries the number i + 1 |
| UploadQueueScreen.QueueNumbersOneToN | app/src/main/java/com/roaddefect/driverapp/ui/screens/UploadQueueScreen.kt:169-170 | the queue numbers rise strictly from 1 to the number of pending trips |
| UploadQueueScreen.Retry | app/src/main/java/com/roaddefect/driverapp/ui/screens/UploadQueueScreen.kt:185 | retry marks the trip uploading at 0% and changes nothing else about it |
| UploadQueueScreen.CountWithId | app/src/main/java/com/roaddefect/driverapp/ui/screens/UploadQueueScreen.kt:185 | the number of entries with a given id and status test is at most the list's length |
| UploadQueueScreen.CountAfterReplace | app/src/main/java/com/roaddefect/driverapp/ui/screens/UploadQueueScreen.kt:185 | replacing by id takes the replaced entries out of their status counts and adds them to the new trip's |
| UploadQueueScreen.CountWithIdMember | app/src/main/java/com/roaddefect/driverapp/ui/screens/UploadQueueScreen.kt:185 | a listed trip is counted under its own id and status |
| UploadQueueScreen.CountWithIdBelowAll | app/src/main/java/com/roaddefect/driverapp/ui/screens/UploadQueueScreen.kt:185 | a narrower status test never counts more entries |
| UploadQueueScreen.CountWithIdFailedOnly | app/src/main/java/com/roaddefect/driverapp/ui/screens/UploadQueueScreen.kt:185 | a failed trip whose id occurs once has no uploading entry with that id |
| UploadQueueScreen.CountWithIdNone | app/src/main/java/com/roaddefect/driverapp/ui/screens/UploadQueueScreen.kt:185 | an id with no entry has no uploading entry |
| UploadQueueScreen.RetryMovesTrip | app/src/main/java/com/roaddefect/driverapp/ui/screens/UploadQueueScreen.kt:175-187 | retrying a failed trip whose id occurs once takes one trip out of the failed section and adds one to the uploading section |
| UploadQueueScreen.RecentlyCompleted | app/src/main/java/com/roaddefect/driverapp/ui/screens/UploadQueueScreen.kt:191-201 | the recent list is the first five completed trips, or all of them when there are fewer |
| UploadQueueScreen.WifiAlertMeaning | app/src/main/java/com/roaddefect/driverapp/ui/screens/UploadQueueScreen.kt:103 | the Wi-Fi alert shows exactly when there is no Wi-Fi and some trip is pending |
| UploadQueueScreen.EmptyStateHidesSections | app/src/main/java/com/roaddefect/driverapp/ui/screens/UploadQueueScreen.kt:147-205 | when the empty state shows, every section is empty, so none is drawn |
| TripHistoryScreen.SumDurationsWraps | app/src/main/java/com/roaddefect/driverapp/ui/screens/TripHistoryScreen.kt:27 | an `Int` running total that wraps at each step ends at the exact sum reduced to an `Int` |
| TripHistoryScreen.TotalDurationIsSum | app/src/main/java/com/roaddefect/driverapp/ui/screens/TripHistoryScreen.kt:27 | the total duration is the exact sum of the durations reduced to an `Int`, and the exact sum when that fits |
| TripHistoryScreen.UploadedTrips | app/src/main/java/com/roaddefect/driverapp/ui/screens/TripHistoryScreen.kt:28 | the uploaded count never exceeds the number of trips |
| TripHistoryScreen.UploadedLabelReads | app/src/main/java/com/roaddefect/driverapp/ui/screens/TripHistoryScreen.kt:66 | the "k/n" label splits at its one slash into the decimal of the completed count and the decimal of the list length |
| TripHistoryScreen.BadgeLabelsDistinct | app/src/main/java/com/roaddefect/driverapp/ui/screens/TripHistoryScreen.kt:231-236 | different statuses show different badge texts |
| TripHistoryScreen.ProgressLabel | app/src/main/java/com/roaddefect/driverapp/ui/screens/TripHistoryScreen.kt:183-189 | a progress figure, ending in "%", shows exactly for an uploading trip |
| RecordingScreen.OnRecordButton | app/src/main/java/com/roaddefect/driverapp/ui/screens/RecordingScreen.kt:313-348 | in preview the button sends the start command and leaves preview; while recording it sends the stop command, returns to preview and completes the journey |
| RecordingScreen.StartThenStop | app/src/main/java/com/roaddefect/driverapp/ui/screens/RecordingScreen.kt:313-348 | two presses from preview send start and then stop, end in preview on the summary screen, and put one new pending trip in front of the old list |
| RecordingScreen.BannerFollowsLink | app/src/main/java/com/roaddefect/driverapp/ui/screens/RecordingScreen.kt:128-131 | after a link change the ESP32 warning shows exactly when the link is not connected |
| RecordingScreen.ClockPartsDecompose | app/src/main/java/com/roaddefect/driverapp/ui/screens/RecordingScreen.kt:444-447 | for a non-negative count, the hours, minutes of 0..59 and seconds of 0..59 make up the count |
| RecordingScreen.FormatTime | app/src/main/java/com/roaddefect/driverapp/ui/screens/RecordingScreen.kt:444-449 | the clock text has at least eight characters and, for a non-negative count, is the two-digit hours, minutes and seconds joined by ":" |
| RecordingScreen.FormatTimeReadsBack | app/src/main/java/com/roaddefect/driverapp/ui/screens/RecordingScreen.kt:444-449 | a non-negative count prints as three digit fields, minutes and seconds two digits under 60, whose values rebuild the count |
| RecordingScreen.ClocksAgree | app/src/main/java/com/roaddefect/driverapp/ui/screens/RecordingScreen.kt:444-449 | the screen's clock of the whole elapsed seconds reads the same as the recording service's notification clock of the milliseconds |
| RecordingService.Create | app/src/main/java/com/roaddefect/driverapp/services/RecordingService.kt:67-73 | a new service is not recording, runs no timer and has no trip folder |
| RecordingService.StartRecording | app/src/main/java/com/roaddefect/driverapp/services/RecordingService.kt:95-137 | a start while recording changes nothing; otherwise the trip folder is `<external dir>/<trip id>`, the start time is the clock's, and one new timer loop for that trip runs and is the one held |
| RecordingService.Tick | app/src/main/java/com/roaddefect/driverapp/services/RecordingService.kt:119-129 | a loop that still runs publishes "recording" under the trip id it captured, for the time since the shared start, wrapped to a `Long`; a cancelled loop does nothing; only the status changes |
| RecordingService.StopRecording | app/src/main/java/com/roaddefect/driverapp/services/RecordingService.kt:139-160 | a stop while not recording changes nothing and returns no folder; otherwise the held loop is cancelled, the status keeps its fields but stops recording, and the trip folder comes back |
| RecordingService.OnStartCommand | app/src/main/java/com/roaddefect/driverapp/services/RecordingService.kt:75-86 | a start action starts with the intent's trip id or else the generated one, a stop action stops, anything else changes nothing, and the answer is always sticky |
| RecordingService.OnlyTicksRaiseRecording | app/src/main/java/com/roaddefect/driverapp/services/RecordingService.kt:95-160 | neither start nor stop raises the recording flag |
| RecordingService.StartTickStop | app/src/main/java/com/roaddefect/driverapp/services/RecordingService.kt:95-160 | start, one tick and stop publish the elapsed time for the trip, hand back the folder made at the start, lower the flag and leave the loop cancelled |
| RecordingService.LeakedTimerRevivesRecording | app/src/main/java/com/roaddefect/driverapp/services/RecordingService.kt:95-137 | two starts before the first tick launch two loops; the stop cancels only the second, and the first raises the recording flag again afterwards |
| RecordingService.StartRecordingFixed | app/src/main/java/com/roaddefect/driverapp/services/RecordingService.kt:95-99 | the corrected start also refuses while a timer loop is held, and otherwise starts as before |
| RecordingService.StepFixedKeepsOneTimer | app/src/main/java/com/roaddefect/driverapp/services/RecordingService.kt:95-160 | with the corrected start every step keeps at most one loop running, the held one, and after a stop no tick raises the recording flag |
| RecordingService.RunFixedKeepsOneTimer | app/src/main/java/com/roaddefect/driverapp/services/RecordingService.kt:95-160 | with the corrected start any run of starts, stops and ticks keeps at most one loop running |
| RecordingService.ClockParts | app/src/main/java/com/roaddefect/driverapp/services/RecordingService.kt:164-167 | for a non-negative count, minutes and seconds of 0..59 and whole hours that make up the milliseconds to within one second |
| RecordingService.MinutesOfMillis | app/src/main/java/com/roaddefect/driverapp/services/RecordingService.kt:165-166 | the whole minutes of a millisecond count are the whole minutes of its whole seconds |
| RecordingService.HoursOfMillis | app/src/main/java/com/roaddefect/driverapp/services/RecordingService.kt:165-167 | the whole hours of a millisecond count are the whole hours of its whole seconds |
| RecordingService.FormatTime | app/src/main/java/com/roaddefect/driverapp/services/RecordingService.kt:164-169 | the notification clock has at least eight characters and, for a non-negative count, prints the two-digit hours, minutes and seconds that make up the milliseconds |

## Left out

- Compose rendering: layout, colours, icons and animation on every screen, including the dashboard and system-health screens, are display only. The model keeps only the conditions that decide what shows.
- Camera, GPS, IMU and geofence wrappers: CameraX preview and unbinding, fused-location and sensor callbacks, GPS and IMU tracking inside the recording service, and `Location.distanceTo`. These are platform callbacks. The geofence state and distances become parameters.
- Network and cloud SDK: the trip API client and its JSON models, and the Cognito, S3 client and TransferUtility set-up in `S3UploadService.kt:85-131`. The transfer engine is an oracle inside the upload service's state: increasing transfer ids, observed states, and lookups, resumes and pauses that may throw.
- Notifications and broadcast delivery: notification channels and texts, including the progress notification, are left out. Broadcasts are the outputs of step functions; their delivery to receivers is the next step's input.
- Lifecycle plumbing: activities, the application class, `BleManager.kt`, service binding and unbinding, and foreground-service start and stop calls. The trip summary screen stops the upload service with `stopService` (`TripSummaryScreen.kt:121`), which destroys it without delivering `ACTION_STOP` to `onStartCommand`. The stop branch of `S3UploadService.OnStartCommand`, which clears the queue and pauses the transfers, is therefore not reached from that screen; service destruction is not modelled.
- Concurrency: coroutines, `Handler.postDelayed`, `ConcurrentLinkedQueue` and `SharedFlow` buffering. Timers and callbacks are explicit events applied one at a time; thread interleavings are not modelled.
- Exceptions: `try`/`catch` paths that only log are dropped. The engine lookups, resumes and pauses that the upload service catches are modelled as failing oracle answers; a pause that throws leaves its transfer as it was. The engine reports state changes only for transfers it knows, so a state change for an unknown id reaches its listener, if any, without being recorded.
- Floating point: GPS distances, `formatDistance`, the queue's `estimatedTime`, the distance total on the history screen, and the `storage * 1.28f` estimate. Sensor floats stay raw 32-bit patterns.
- FileManager.AvailableStoragePercentage: computes the exact rounded-down quotient 100 * available / total, where the source divides `Double`s and multiplies by 100. The `Double` result can land one percent lower when the quotient is a whole percent that binary floating point cannot represent exactly.
- Wall clock and locale: trip ids made from the date and the clock readings are parameters. Formatting assumes ASCII digits.
- The Wi-Fi stability debounce in `WifiGateManager.kt:43-112` is commented out, so it is not part of this model.
- The ESP32 sample aggregator and CSV flush are not part of this model. Only their file names exist in the file layout. `onBleData`, which the view model calls, is not defined by the recording service it calls it on.
- `hasCameraPermission`, `hasLocationPermission` and `hasWifiPermission` are single look-ups in the granted set. Nothing in the core calls them, so they are left out; the granted set is a parameter of the checks that are modelled.
- `BlePacket.hashCode` is left out. Equality of packets is modelled; the hash is only a consistency obligation of the JVM.
- S3Metadata.FindExisting: returns the least matching transfer id. The source returns the first match in the preferences map's iteration order, which is unspecified; the contract only promises some match, and no match exactly when none exists.
- The trip id extra: the summary screen puts the trip id as a `Long` (`TripSummaryScreen.kt:504`, `514`, `523`), but the upload service reads it with `getStringExtra` (`S3UploadService.kt:146`) and the receiver does the same (`TripSummaryScreen.kt:64`, `79`). As written, every upload task therefore has a null trip id, its broadcasts carry none, and the receiver's comparison with the `Long` id never holds. The model carries the trip id by value from the request to the broadcast and compares by value, which is what the code evidently means; the null reading is not modelled.
- File paths are joined with "/" and not normalised (`absolutePath`, `..`, repeated separators). `getExternalFilesDir(null)` returning null is the `hasDir` flag.
- FileManager.SortBy: states that the result is ordered by timestamp and is a permutation of the input. It does not state that `sortedByDescending` keeps entries with equal timestamps in input order.
- S3UploadService.Attach: registers one listener per transfer id, replacing any earlier one (`listeners[id := task]`). The source adds a new listener object on every attach and never removes one, so a transfer attached at recovery and again through the dedup lookup gets COMPLETED delivered twice, with two success broadcasts and two `processNext` calls. The model delivers each callback once, to the latest task.
- S3UploadService.EngineUpload: hands out the ids in increasing order and promises a fresh id only below `Int.MAX_VALUE`; at the top of the range the next id stays put. The SDK allocates ids from its own database, which is not part of this model.

## Findings

| source | as written | input that shows it | evidently intended | confidence | as-written member | corrected member |
|---|---|---|---|---|---|---|
| app/src/main/java/com/roaddefect/driverapp/ble/BleService.kt:260-276 | `scheduleReconnect` sets `isReconnecting` and only `disconnect()` or a GATT connection clears it, so after its job has fired no later failure schedules another reconnect | the ESP32 out of range: start, scan timeout, reconnect fires, scan timeout again | every failure while the link is wanted schedules a reconnect after the fixed delay | medium, not executed | BleService.OutOfRangeGivesUp | BleService.OutOfRangeKeepsRetrying |
| app/src/main/java/com/roaddefect/driverapp/ui/screens/TripSummaryScreen.kt:55-89 | the receiver waits for `totalFilesToUpload = 3` completions, but without a video file the button enqueues only the GPS and IMU files | a trip whose video file does not exist: two uploads and two completions leave the trip uploading with the counter at 2. This reads the trip id by value; as written the id is read with `getStringExtra` from a `Long` extra, so it is null and the counter never moves at all | the trip is marked completed after one completion per enqueued file | high, not executed | TripSummaryScreen.TwoFileUploadNeverCompletes | TripSummaryScreen.FixedUploadCompletes |
| app/src/main/java/com/roaddefect/driverapp/utils/FileManager.kt:21-73 | `getTripDirectory` makes `<external>/<id>` but `getAllTrips` (and `cleanupOldestTrips` through it) lists `<external>/trips` | any recorded trip: its folder is never listed and never cleaned up | trips are listed from the folder they are recorded in | high, not executed | FileManager.GetAllTripsMissesTripDirectory | FileManager.GetAllTripsFixedFindsTripDirectory |
| app/src/main/java/com/roaddefect/driverapp/services/RecordingService.kt:95-137 | the start guard reads the published status, which the timer loop only sets on its first iteration, so a second start before that launches a second loop and overwrites `timerJob` | start "a", start "b", one tick, stop: the first loop still runs and publishes recording for "a" after the stop | one timer loop per recording, and none after a stop | low, not executed (depends on two starts arriving before the loop's first iteration) | RecordingService.LeakedTimerRevivesRecording | RecordingService.RunFixedKeepsOneTimer |
