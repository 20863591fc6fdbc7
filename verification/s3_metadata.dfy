/** The persistent side of the upload queue: upload tasks, their metadata
    records in the preferences file (one JSON object per transfer id, under
    the key `transfer_meta_<id>`), the lookup of an earlier transfer for the
    same file, the transfer-engine states the service recognises, and the
    retry arithmetic. */
module S3Metadata {
  import opened Common
  import opened Text

  const MAX_UPLOAD_ATTEMPTS: Int32 := 3
  const BASE_RETRY_DELAY_MS: Int64 := 4000
  const META_PREFIX: string := "transfer_meta_"

  /** An upload request: a local file, its object key, the trip it belongs
      to and how many attempts preceded this one. */
  datatype UploadTask = UploadTask(filePath: string, s3Key: string, tripId: Option<string>, attempt: Int32)

  /** The JSON object stored for a transfer; a null trip id is stored as "". */
  datatype MetaRecord = MetaRecord(filePath: string, s3Key: string, tripId: string, attempt: Int32)

  /** The preferences file restricted to metadata entries, by transfer id. */
  type MetaStore = map<Int32, MetaRecord>

  // ---------------------------------------------------------------------
  // Keys
  // ---------------------------------------------------------------------

  /** `"$META_PREFIX$transferId"`. */
  function MetaKey(id: Int32): (k: string)
    ensures StartsWith(k, META_PREFIX)
  {
    META_PREFIX + IntToDecimal(id)
  }

  /** `key.removePrefix(META_PREFIX).toIntOrNull()` for a key that starts
      with the prefix; any other key is skipped. */
  function ParseMetaKey(k: string): (r: Option<Int32>)
    ensures r.Some? ==> StartsWith(k, META_PREFIX)
  {
    if StartsWith(k, META_PREFIX) then ToIntOrNull(RemovePrefix(k, META_PREFIX)) else None
  }

  /** Every key the service writes parses back to its transfer id. */
  lemma MetaKeyRoundTrip(id: Int32)
    ensures ParseMetaKey(MetaKey(id)) == Some(id)
  {
    var k := MetaKey(id);
    assert k[..|META_PREFIX|] == META_PREFIX;
    assert RemovePrefix(k, META_PREFIX) == IntToDecimal(id);
    IntDecimalRoundTrip(id);
  }

  /** Distinct transfers never share a key. */
  lemma MetaKeyInjective(a: Int32, b: Int32)
    requires MetaKey(a) == MetaKey(b)
    ensures a == b
  {
    MetaKeyRoundTrip(a);
    MetaKeyRoundTrip(b);
  }

  /** The metadata keys present in the preferences file. */
  function PrefKeys(store: MetaStore): set<string> {
    set id | id in store :: MetaKey(id)
  }

  /** Scanning the keys of the file recovers exactly the stored ids. */
  lemma PrefKeysParse(store: MetaStore)
    ensures forall k :: k in PrefKeys(store) ==> ParseMetaKey(k).Some? && ParseMetaKey(k).value in store
    ensures forall id :: id in store ==> MetaKey(id) in PrefKeys(store)
  {
    forall k | k in PrefKeys(store)
      ensures ParseMetaKey(k).Some? && ParseMetaKey(k).value in store
    {
      var id :| id in store && k == MetaKey(id);
      MetaKeyRoundTrip(id);
    }
  }

  // ---------------------------------------------------------------------
  // Save / read / remove
  // ---------------------------------------------------------------------

  /** `tripIdRaw.ifBlank { null }` applied to an optional trip id. */
  function NormalizeTripId(t: Option<string>): (r: Option<string>)
    ensures r.Some? ==> !IsBlank(r.value) && t == r
    ensures t.None? ==> r.None?
  {
    if t.Some? && !IsBlank(t.value) then t else None
  }

  /** `saveTransferMetadata`. */
  function SaveMeta(store: MetaStore, id: Int32, task: UploadTask): (r: MetaStore)
    ensures id in r && r.Keys == store.Keys + {id}
    ensures forall other :: other in store && other != id ==> r[other] == store[other]
  {
    store[id := MetaRecord(task.filePath, task.s3Key, task.tripId.GetOr(""), task.attempt)]
  }

  /** `readTransferMetadata`: absent, or a blank path or key, reads as null;
      a blank trip id reads as null. */
  function ReadMeta(store: MetaStore, id: Int32): (r: Option<UploadTask>)
    ensures r.Some? ==> id in store
    ensures r.Some? ==> !IsBlank(r.value.filePath) && !IsBlank(r.value.s3Key)
    ensures r.Some? ==> r.value.tripId.None? || !IsBlank(r.value.tripId.value)
  {
    if id !in store then None
    else
      var m := store[id];
      if IsBlank(m.filePath) || IsBlank(m.s3Key) then None
      else Some(UploadTask(m.filePath, m.s3Key, if IsBlank(m.tripId) then None else Some(m.tripId), m.attempt))
  }

  /** `removeTransferMetadata`. */
  function RemoveMeta(store: MetaStore, id: Int32): (r: MetaStore)
    ensures id !in r && r.Keys == store.Keys - {id}
    ensures forall other :: other in r ==> r[other] == store[other]
  {
    store - {id}
  }

  /** Saving then reading gives back the task, with a blank trip id read as
      null; a blank path or key is not read back at all. */
  lemma SaveReadRoundTrip(store: MetaStore, id: Int32, task: UploadTask)
    ensures !IsBlank(task.filePath) && !IsBlank(task.s3Key) ==>
      ReadMeta(SaveMeta(store, id, task), id) == Some(task.(tripId := NormalizeTripId(task.tripId)))
    ensures IsBlank(task.filePath) || IsBlank(task.s3Key) ==>
      ReadMeta(SaveMeta(store, id, task), id) == None
  {
    if task.tripId.None? {
      assert IsBlank("");
    }
  }

  /** Saving a record under one id does not change what any other id reads. */
  lemma SaveReadOther(store: MetaStore, id: Int32, task: UploadTask, other: Int32)
    requires other != id
    ensures ReadMeta(SaveMeta(store, id, task), other) == ReadMeta(store, other)
  {
  }

  /** Writing back what was read changes nothing that can be read. */
  lemma ResaveIsInvisible(store: MetaStore, id: Int32, other: Int32)
    requires ReadMeta(store, id).Some?
    ensures ReadMeta(SaveMeta(store, id, ReadMeta(store, id).value), other) == ReadMeta(store, other)
  {
    var t := ReadMeta(store, id).value;
    if other == id {
      SaveReadRoundTrip(store, id, t);
    }
  }

  // ---------------------------------------------------------------------
  // Finding an earlier transfer of the same file
  // ---------------------------------------------------------------------

  /** The stored transfer describes the same upload: same file, same key and
      same trip id as read back, whatever the attempt. */
  predicate SameUpload(stored: Option<UploadTask>, task: UploadTask) {
    stored.Some? && stored.value.filePath == task.filePath
    && stored.value.s3Key == task.s3Key && stored.value.tripId == task.tripId
  }

  /** `findExistingTransferId`: some stored transfer of the same upload, if
      there is one. The preferences file is a hash map, so which match comes
      first is unspecified; the model returns the least id. */
  function FindExisting(store: MetaStore, task: UploadTask): (r: Option<Int32>)
    ensures r.Some? ==> r.value in store && SameUpload(ReadMeta(store, r.value), task)
    ensures r.None? <==> forall id :: id in store ==> !SameUpload(ReadMeta(store, id), task)
  {
    var matches := set id | id in store && SameUpload(ReadMeta(store, id), task);
    if forall id :: id in store ==> !SameUpload(ReadMeta(store, id), task) then None
    else
      var w :| w in store && SameUpload(ReadMeta(store, w), task);
      assert w in matches;
      Some(MinOf(matches))
  }

  /** A task that was saved with a normalised trip id is found again. */
  lemma SavedTaskIsFound(store: MetaStore, id: Int32, task: UploadTask)
    requires !IsBlank(task.filePath) && !IsBlank(task.s3Key)
    requires NormalizeTripId(task.tripId) == task.tripId
    ensures FindExisting(SaveMeta(store, id, task), task).Some?
  {
    SaveReadRoundTrip(store, id, task);
    assert SameUpload(ReadMeta(SaveMeta(store, id, task), id), task);
  }

  /** A task whose trip id is present but blank never matches a stored
      transfer, since a blank trip id is saved as "" and read back as null. */
  lemma BlankTripIdNeverMatches(store: MetaStore, task: UploadTask)
    requires task.tripId.Some? && IsBlank(task.tripId.value)
    ensures FindExisting(store, task).None?
  {
    forall id | id in store
      ensures !SameUpload(ReadMeta(store, id), task)
    {
      var m := ReadMeta(store, id);
      assert m.Some? ==> m.value.tripId.None? || !IsBlank(m.value.tripId.value);
    }
  }

  // ---------------------------------------------------------------------
  // Transfer-engine states
  // ---------------------------------------------------------------------

  /** The states of the AWS Mobile SDK `TransferState` enum. */
  datatype TransferState =
    | Waiting | InProgress | Paused | ResumedWaiting | Completed | Canceled | Failed
    | WaitingForNetwork | PartCompleted | PendingCancel | PendingPause
    | PendingNetworkDisconnect | Unknown

  /** `state.name`. */
  function StateName(st: TransferState): string {
    match st
    case Waiting => "WAITING"
    case InProgress => "IN_PROGRESS"
    case Paused => "PAUSED"
    case ResumedWaiting => "RESUMED_WAITING"
    case Completed => "COMPLETED"
    case Canceled => "CANCELED"
    case Failed => "FAILED"
    case WaitingForNetwork => "WAITING_FOR_NETWORK"
    case PartCompleted => "PART_COMPLETED"
    case PendingCancel => "PENDING_CANCEL"
    case PendingPause => "PENDING_PAUSE"
    case PendingNetworkDisconnect => "PENDING_NETWORK_DISCONNECT"
    case Unknown => "UNKNOWN"
  }

  /** Distinct states have distinct names. */
  lemma StateNameInjective(a: TransferState, b: TransferState)
    requires StateName(a) == StateName(b)
    ensures a == b
  {
    var na, nb := StateName(a), StateName(b);
    assert na[0] == nb[0] && |na| == |nb|;
    if |na| > 7 {
      assert na[7] == nb[7];
    }
  }

  /** `observer.state?.name`: a transfer with no state has no name. */
  function ObservedName(st: Option<TransferState>): Option<string> {
    if st.Some? then Some(StateName(st.value)) else None
  }

  /** `isRecoverableState`. */
  predicate IsRecoverableState(name: string) {
    name == "WAITING" || name == "IN_PROGRESS" || name == "RESUMED_WAITING"
    || name == "PAUSED" || name == "FAILED" || name == "WAITING_FOR_NETWORK"
  }

  /** `shouldResumeState`. */
  predicate ShouldResumeState(name: Option<string>) {
    name == Some("PAUSED") || name == Some("FAILED") || name == Some("WAITING_FOR_NETWORK")
  }

  /** Recovery attaches the unfinished states and resumes the stalled ones;
      a state without a name (`?: "UNKNOWN"`) is never recovered. */
  lemma RecoveryFilters(st: TransferState)
    ensures IsRecoverableState(StateName(st)) <==> st in {Waiting, InProgress, ResumedWaiting, Paused, Failed, WaitingForNetwork}
    ensures ShouldResumeState(ObservedName(Some(st))) <==> st in {Paused, Failed, WaitingForNetwork}
    ensures ShouldResumeState(ObservedName(Some(st))) ==> IsRecoverableState(StateName(st))
    ensures !IsRecoverableState(ObservedName(None).GetOr("UNKNOWN"))
  {
    match st
    case Waiting =>
    case InProgress =>
    case Paused =>
    case ResumedWaiting =>
    case Completed =>
    case Canceled =>
    case Failed =>
    case WaitingForNetwork =>
    case PartCompleted =>
    case PendingCancel =>
    case PendingPause =>
    case PendingNetworkDisconnect =>
    case Unknown =>
  }

  // ---------------------------------------------------------------------
  // Retry arithmetic
  // ---------------------------------------------------------------------

  lemma Pow2FitsLong(n: nat)
    ensures n < 63 ==> Pow2(n) < 0x8000_0000_0000_0000
  {
    if n < 63 {
      Pow2Monotone(n, 62);
      Pow2Values();
    }
  }

  /** `1L shl n`: the JVM uses only the low six bits of the shift distance. */
  function ShlOne(n: Int32): (r: Int64)
    ensures 0 <= n < 63 ==> r == Pow2(n)
  {
    Pow2FitsLong(n % 64);
    WrapInt64(Pow2(n % 64))
  }

  /** `BASE_RETRY_DELAY_MS * (1L shl attempt)`, in `Long`. */
  function RetryDelay(attempt: Int32): Int64 {
    WrapInt64(BASE_RETRY_DELAY_MS * ShlOne(attempt))
  }

  /** The delay doubles with each attempt from 4 s, without overflow for
      any attempt up to 50. */
  lemma RetryDelayDoubles(attempt: Int32)
    requires 0 <= attempt <= 50
    ensures RetryDelay(attempt) == 4000 * Pow2(attempt)
    ensures attempt > 0 ==> RetryDelay(attempt) == 2 * RetryDelay(attempt - 1)
  {
    Pow2Monotone(attempt, 50);
    Pow2Values();
  }

  /** The two retries the ceiling admits wait 4 s and 8 s. */
  lemma RetryDelaysUnderCeiling()
    ensures RetryDelay(0) == 4000 && RetryDelay(1) == 8000
  {
    RetryDelayDoubles(0);
    RetryDelayDoubles(1);
  }

  /** `task.attempt + 1` in `Int`. */
  function NextAttempt(attempt: Int32): (r: Int32)
    ensures attempt < 0x7FFF_FFFF ==> r == attempt + 1
  {
    WrapInt32(attempt + 1)
  }

  /** A failure of attempt `a` is retried exactly when `a + 1 < 3`, i.e. the
      first and second attempts are retried and the third is final. */
  lemma RetryCeiling(attempt: Int32)
    requires 0 <= attempt < 0x7FFF_FFFF
    ensures NextAttempt(attempt) < MAX_UPLOAD_ATTEMPTS <==> attempt < 2
  {
  }

  // ---------------------------------------------------------------------
  // Progress reporting
  // ---------------------------------------------------------------------

  lemma DivAtMost(a: nat, b: nat, c: nat)
    requires b > 0 && a <= c * b
    ensures a / b <= c
  {
    DivBounds(a, b);
    MulCancel(a / b, c, b);
  }

  lemma PercentBound(cur: int, total: int)
    requires total > 0
    ensures 0 <= cur <= total && total < 0x10_0000_0000_0000 ==>
      && cur * 100 == WrapInt64(cur * 100) && 0 <= Quot(cur * 100, total) <= 100
      && Quot(cur * 100, total) * total <= cur * 100 < (Quot(cur * 100, total) + 1) * total
  {
    if 0 <= cur <= total && total < 0x10_0000_0000_0000 {
      assert cur * 100 <= 100 * total;
      QuotRemNonNegative(cur * 100, total);
      DivAtMost(cur * 100, total, 100);
      DivBounds(cur * 100, total);
    }
  }

  /** `onProgressChanged`: the percentage `((cur * 100) / total).toInt()`,
      none when the total is not positive. */
  function ProgressPercent(bytesCurrent: Int64, bytesTotal: Int64): (r: Option<Int32>)
    ensures bytesTotal <= 0 ==> r.None?
    ensures bytesTotal > 0 && 0 <= bytesCurrent <= bytesTotal && bytesTotal < 0x10_0000_0000_0000 ==>
      r.Some? && 0 <= r.value <= 100
      && r.value as int * bytesTotal <= bytesCurrent * 100 < (r.value as int + 1) * bytesTotal
  {
    if bytesTotal <= 0 then None
    else
      PercentBound(bytesCurrent, bytesTotal);
      Some(WrapInt32(Quot(WrapInt64(bytesCurrent * 100), bytesTotal)))
  }

  /** The percentage is the one whole number p with p * total <= cur * 100
      < (p + 1) * total: the rounded-down share of the total, in percent. */
  lemma ProgressPercentIsFloor(bytesCurrent: Int64, bytesTotal: Int64, p: int)
    requires 0 < bytesTotal < 0x10_0000_0000_0000 && 0 <= bytesCurrent <= bytesTotal
    requires p * bytesTotal <= bytesCurrent * 100 < (p + 1) * bytesTotal
    ensures ProgressPercent(bytesCurrent, bytesTotal) == Some(p as Int32)
    ensures 0 <= p <= 100
  {
    var q := ProgressPercent(bytesCurrent, bytesTotal).value as int;
    FloorUnique(bytesCurrent * 100, bytesTotal, p, q);
  }

  /** Two whole numbers that both bracket x between multiples of y agree. */
  lemma FloorUnique(x: int, y: int, p: int, q: int)
    requires y > 0
    requires p * y <= x < (p + 1) * y && q * y <= x < (q + 1) * y
    ensures p == q
  {
    if p < q {
      assert (p + 1) * y <= q * y by { MulLe(p + 1, q, y); }
    } else if q < p {
      assert (q + 1) * y <= p * y by { MulLe(q + 1, p, y); }
    }
  }

  lemma MulLe(a: int, b: int, y: int)
    requires a <= b && y > 0
    ensures a * y <= b * y
  {
  }

  /** The notification text is refreshed only on multiples of ten percent. */
  predicate AnnouncesProgress(p: Option<Int32>) {
    p.Some? && Rem(p.value, 10) == 0
  }
}
