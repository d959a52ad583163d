/** The imperative side of the batch job: the checkpoint files, the row loop
    of `process_file_background` with its rate-limited queries, the job as a
    whole from reading the upload to delivering the result, and the
    `active_tasks` guard that allows one job per user. */
module Background {
  import opened Text
  import opened RateLimiting
  import opened Results
  import opened Batch

  /** `CheckpointManager`: the checkpoint files, by checkpoint id. */
  class CheckpointStore {
    var saved: map<string, Progress>

    constructor ()
      ensures saved == map[]
    {
      saved := map[];
    }

    /** `save_checkpoint`: replaces the file for `id`. */
    method Save(id: string, data: Progress)
      modifies this
      ensures saved == old(saved)[id := data]
    {
      saved := saved[id := data];
    }

    /** `load_checkpoint`: the saved progress, or nothing when there is no file. */
    method Load(id: string) returns (data: Option<Progress>)
      ensures id in saved ==> data == Some(saved[id])
      ensures id !in saved ==> data == None
    {
      data := if id in saved then Some(saved[id]) else None;
    }

    /** `delete_checkpoint`. */
    method Delete(id: string)
      modifies this
      ensures saved == old(saved) - {id}
    {
      saved := saved - {id};
    }
  }

  /** The reply records as the dicts `format_full_result` works on: one
      fresh object per record. */
  method Materialize(data: seq<Record>) returns (items: seq<Item>)
    ensures |items| == |data|
    ensures forall k :: 0 <= k < |items| ==> fresh(items[k]) && items[k].fields == data[k]
    ensures forall a, b :: 0 <= a < b < |items| ==> items[a] != items[b]
  {
    items := [];
    var k := 0;
    while k < |data|
      invariant 0 <= k <= |data| && |items| == k
      invariant forall i :: 0 <= i < k ==> fresh(items[i]) && items[i].fields == data[i]
      invariant forall a, b :: 0 <= a < b < k ==> items[a] != items[b]
    {
      var item := new Item(data[k]);
      items := items + [item];
      k := k + 1;
    }
  }

  /** A cache miss of the row loop: the query behind the rate limiter, the
      balance test, and the two formatters. `latency` is how long the POST
      takes. */
  method Lookup(inn: string, service: Service, limiter: SimpleRateLimiter, userId: int, now: int, latency: nat)
    returns (entry: Entry, clock: int)
    requires limiter.Valid()
    modifies limiter
    ensures limiter.Valid() && limiter.callCount == Admit(old(limiter.callCount), limiter.maxCalls)
    ensures entry == ServiceEntry(service, inn)
    ensures clock >= now
  {
    var notices, later := limiter.WaitIfNeeded(now, userId != 0, true);
    clock := later + latency;
    var outcome := Classify(service.answer(inn));
    match outcome
    case Raises =>
      entry := Entry(QUERY_FAILED, QUERY_FAILED, false);
    case Returned(resp) =>
      if BalanceSignal(resp) {
        entry := Entry(NO_BALANCE, NO_BALANCE, true);
      } else {
        var phones := ExtractPhones(resp, service.findall);
        var items := Materialize(resp.data);
        assert FieldsOf(items) == resp.data;
        var full := FormatFullResult(resp.status, resp.message, resp.counts, items);
        entry := Entry(if phones != "" then phones else NO_PHONES, if full != "" then full else NOTHING_FOUND, false);
      }
  }

  /** The row saves a checkpoint: it reaches the triggers with 50 or more
      rows processed since the last save of the session. */
  predicate Saves(j: Job, inn: string, env: Env)
  {
    Reaches(j.progress, inn) && Step(j.progress, inn, env).processed - j.lastSave >= SAVE_INTERVAL
  }

  lemma RunJobSnoc(j: Job, rows: seq<string>, i: nat, env: Env)
    requires i < |rows|
    ensures RunJob(j, rows[..i + 1], env) == JobStep(RunJob(j, rows[..i], env), rows[i], env)
  {
    assert rows[..i + 1][..i] == rows[..i];
  }

  /** The checkpoint files after a session that saved `saved` last. */
  function StoreAfter(files: map<string, Progress>, id: string, saved: Option<Progress>): map<string, Progress>
  {
    if saved.Some? then files[id := saved.value] else files
  }

  /** A later save overwrites the file of an earlier one. */
  lemma StoreAfterSave(files: map<string, Progress>, id: string, saved: Option<Progress>, data: Progress)
    ensures StoreAfter(files, id, saved)[id := data] == StoreAfter(files, id, Some(data))
  {
    if saved.Some? {
      var a, b := files[id := saved.value][id := data], files[id := data];
      assert a.Keys == b.Keys;
      assert forall k :: k in a ==> a[k] == b[k];
    }
  }

  /** A row queries at most once and saves exactly when `Saves` says. */
  lemma JobStepCounts(j: Job, inn: string, env: Env)
    ensures |JobStep(j, inn, env).queried| == |j.queried| + if Queries(j.progress, inn) then 1 else 0
    ensures JobStep(j, inn, env).saved == if Saves(j, inn, env) then Some(Step(j.progress, inn, env)) else j.saved
    ensures JobStep(j, inn, env).progress == Step(j.progress, inn, env)
  {
  }

  /** The part of a row that reaches the cache: a hit writes the cached
      texts, a miss queries the service and caches what comes back. */
  method AnswerRow(p: Progress, inn: string, userId: int, env: Env, service: Service,
                   limiter: SimpleRateLimiter, now: int, latency: string -> nat)
    returns (q: Progress, clock: int)
    requires Reaches(p, inn) && Serves(env, service) && limiter.Valid()
    modifies limiter
    ensures q == Step(p, inn, env)
    ensures limiter.Valid()
    ensures limiter.callCount == if Queries(p, inn) then Admit(old(limiter.callCount), limiter.maxCalls)
                                 else old(limiter.callCount)
    ensures clock >= now
  {
    var phoneList, fullList, cache := p.phoneList, p.fullList, p.cache;
    var balanceExhausted := false;
    clock := now;
    if inn in cache {
      var e := cache[inn];
      if e.balanceError {
        balanceExhausted := true;
        phoneList, fullList := phoneList + [NO_BALANCE], fullList + [NO_BALANCE];
      } else {
        phoneList, fullList := phoneList + [e.phones], fullList + [e.full];
      }
    } else {
      var e;
      e, clock := Lookup(inn, service, limiter, userId, clock, latency(inn));
      assert e == env.entry(inn);
      cache := cache[inn := e];
      if e.balanceError {
        balanceExhausted := true;
        phoneList, fullList := phoneList + [NO_BALANCE], fullList + [NO_BALANCE];
      } else {
        phoneList, fullList := phoneList + [e.phones], fullList + [e.full];
      }
    }
    q := Progress(phoneList, fullList, cache, p.processed + 1, balanceExhausted);
  }

  /** One iteration of the row loop of `process_file_background`. */
  method ProcessRow(j: Job, inn: string, id: string, userId: int, env: Env, service: Service,
                    limiter: SimpleRateLimiter, store: CheckpointStore, now: int, latency: string -> nat)
    returns (next: Job, clock: int)
    requires Serves(env, service) && limiter.Valid()
    modifies limiter, store
    ensures next == JobStep(j, inn, env)
    ensures limiter.Valid()
    ensures limiter.callCount == if Queries(j.progress, inn) then Admit(old(limiter.callCount), limiter.maxCalls)
                                 else old(limiter.callCount)
    ensures store.saved == if Saves(j, inn, env) then old(store.saved)[id := next.progress] else old(store.saved)
    ensures clock >= now
  {
    var p := j.progress;
    clock := now;
    if p.balanceExhausted {
      next := j.(progress := Progress(p.phoneList + [NO_BALANCE], p.fullList + [NO_BALANCE], p.cache, p.processed + 1, true));
      return;
    }
    if !ValidInn(inn) {
      next := j.(progress := Progress(p.phoneList + [NOT_INN], p.fullList + [NOT_INN], p.cache, p.processed + 1, false));
      return;
    }
    var q;
    q, clock := AnswerRow(p, inn, userId, env, service, limiter, now, latency);
    var lastCheckpointSave, lastFileSend := j.lastSave, j.lastSend;
    var saved, backups := j.saved, j.backups;
    var queried := if inn in p.cache then j.queried else j.queried + [inn];
    if q.processed - lastCheckpointSave >= SAVE_INTERVAL {
      store.Save(id, q);
      saved := Some(q);
      lastCheckpointSave := q.processed;
    }
    if q.processed - lastFileSend >= SEND_INTERVAL && q.processed > 0 {
      if env.delivered(q.processed) {
        lastFileSend := q.processed;
        backups := backups + [q.processed];
      }
    }
    next := Job(q, lastCheckpointSave, lastFileSend, saved, backups, queried);
  }

  /** The row loop of `process_file_background`, from the row the start
      state has reached to the end of the file. Checkpoints go to `store`
      under `id`; `latency` gives each query's duration. */
  method ProcessRows(rows: seq<string>, start: Progress, id: string, userId: int, env: Env, service: Service,
                     limiter: SimpleRateLimiter, store: CheckpointStore, now: int, latency: string -> nat)
    returns (job: Job, clock: int)
    requires Serves(env, service) && limiter.Valid()
    modifies limiter, store
    ensures job == RunJob(Start(start), Pending(rows, start.processed), env)
    ensures limiter.Valid() && limiter.callCount == AdmitN(old(limiter.callCount), |job.queried|, limiter.maxCalls)
    ensures store.saved == StoreAfter(old(store.saved), id, job.saved)
    ensures clock >= now
  {
    job := Start(start);
    clock := now;
    var pending := Pending(rows, start.processed);
    var i := 0;
    while i < |pending|
      invariant 0 <= i <= |pending|
      invariant job == RunJob(Start(start), pending[..i], env)
      invariant limiter.Valid() && limiter.callCount == AdmitN(old(limiter.callCount), |job.queried|, limiter.maxCalls)
      invariant store.saved == StoreAfter(old(store.saved), id, job.saved)
      invariant clock >= now
    {
      ghost var before, count := job, limiter.callCount;
      JobStepCounts(job, pending[i], env);
      RunJobSnoc(Start(start), pending, i, env);
      job, clock := ProcessRow(job, pending[i], id, userId, env, service, limiter, store, clock, latency);
      if Queries(before.progress, pending[i]) {
        assert limiter.callCount == Admit(count, limiter.maxCalls);
        assert |job.queried| == |before.queried| + 1;
      } else {
        assert limiter.callCount == count && |job.queried| == |before.queried|;
      }
      if Saves(before, pending[i], env) {
        StoreAfterSave(old(store.saved), id, before.saved, job.progress);
      }
      i := i + 1;
    }
    PrefixWhole(pending);
  }

  // -----------------------------------------------------------------------
  // The upload handler's guard and the job as a whole

  /** What the upload handler answers. */
  datatype Submission = AlreadyActive | Unsupported | Started

  predicate Supported(fileName: string)
  {
    EndsWith(fileName, ".xlsx") || EndsWith(fileName, ".csv")
  }

  /** `active_tasks`: the user with a job running, and its checkpoint id. */
  class TaskRegistry {
    var active: map<int, string>

    constructor ()
      ensures active == map[]
    {
      active := map[];
    }

    /** `handle_file`: refuses a second job of the same user and files that
        are not spreadsheets, and otherwise registers the job. */
    method Submit(userId: int, fileName: string, checkpointId: string) returns (r: Submission)
      modifies this
      ensures userId in old(active) ==> r == AlreadyActive && active == old(active)
      ensures userId !in old(active) && !Supported(fileName) ==> r == Unsupported && active == old(active)
      ensures userId !in old(active) && Supported(fileName) ==>
                r == Started && active == old(active)[userId := checkpointId]
    {
      if userId in active {
        return AlreadyActive;
      }
      if !Supported(fileName) {
        return Unsupported;
      }
      active := active[userId := checkpointId];
      r := Started;
    }

    /** `del active_tasks[user_id]`, done only after a delivered result. */
    method Finish(userId: int)
      modifies this
      ensures active == old(active) - {userId}
    {
      if userId in active {
        active := active - {userId};
      }
    }
  }

  /** The uploaded file as the job reads it. */
  datatype Upload = Unreadable(error: string) | Sheet(hasInnColumn: bool, cells: seq<string>)

  /** Why a job stops with "⚠️ Ошибка": the file cannot be read, a message
      sent before the loop fails, the estimate divides by a quota of 0, the
      result lists do not fit the sheet, or writing or sending the result
      file fails. The last two happen after the loop and carry the job it ran. */
  datatype Fault =
    | ReadError(error: string)
    | NoticeFailed
    | ZeroQuota
    | LengthMismatch(job: Job)
    | DeliveryFailed(job: Job)

  /** The job got through the row loop before it failed. */
  predicate RanRows(f: Fault) { f.LengthMismatch? || f.DeliveryFailed? }

  datatype FileOutcome = NoInnColumn | Aborted(fault: Fault) | Finished(job: Job, estimate: int)

  /** The INN column after `.astype(str).str.strip()`. */
  function Column(cells: seq<string>): (rows: seq<string>)
    ensures |rows| == |cells| && forall k :: 0 <= k < |rows| ==> rows[k] == Strip(cells[k])
  {
    seq(|cells|, k requires 0 <= k < |cells| => Strip(cells[k]))
  }

  /** Where a job starts: its checkpoint, or from scratch. */
  function Resumed(saved: map<string, Progress>, id: string): Progress
  {
    if id in saved then saved[id] else Empty
  }

  /** A checkpoint that belongs to a sheet of `n` rows. */
  predicate Fits(saved: map<string, Progress>, id: string, n: nat)
  {
    id !in saved || (WellFormed(saved[id]) && saved[id].processed <= n)
  }

  /** `process_file_background` once the INN column is read into `rows`:
      resume from the checkpoint, estimate, run the rows, check the lengths,
      deliver. `noticeSent` says whether the resume notice (bot.py:378) and
      the start notice (bot.py:413) reach the user, `finalSent` whether
      writing and sending the result file succeeds. */
  method ProcessSheet(userId: int, id: string, rows: seq<string>, env: Env, service: Service,
                      noticeSent: bool, finalSent: bool,
                      registry: TaskRegistry, store: CheckpointStore, limiter: SimpleRateLimiter,
                      now: int, latency: string -> nat)
    returns (outcome: FileOutcome, clock: int)
    requires Serves(env, service) && limiter.Valid()
    modifies registry, store, limiter
    ensures limiter.Valid()
    ensures outcome.Finished? || outcome.Aborted?
    ensures outcome.Aborted? ==> !outcome.fault.ReadError?
    ensures outcome.Finished? ==> registry.active == old(registry.active) - {userId}
    ensures !outcome.Finished? ==> registry.active == old(registry.active)
    ensures outcome.Aborted? && id in old(store.saved) ==> id in store.saved
    // a job that fails before the loop leaves the checkpoints as they were
    ensures outcome.Aborted? && !RanRows(outcome.fault) ==> store.saved == old(store.saved)
    // one that fails after it keeps the last checkpoint it saved
    ensures outcome.Aborted? && RanRows(outcome.fault) ==>
              && (var start := Resumed(old(store.saved), id);
                  outcome.fault.job == RunJob(Start(start), Pending(rows, start.processed), env))
              && store.saved == StoreAfter(old(store.saved), id, outcome.fault.job.saved)
    ensures outcome.Finished? ==>
              && noticeSent && finalSent
              && (var start := Resumed(old(store.saved), id);
                  outcome.job == RunJob(Start(start), Pending(rows, start.processed), env))
              && |outcome.job.progress.phoneList| == |rows|
              && |outcome.job.progress.fullList| == |rows|
              && id !in store.saved
    ensures noticeSent && finalSent && Fits(old(store.saved), id, |rows|) &&
            (limiter.maxCalls >= 1 || |Elems(rows)| <= |Resumed(old(store.saved), id).cache|)
            ==> outcome.Finished?
  {
    clock := now;
    var checkpoint := store.Load(id);
    var start := if checkpoint.Some? then checkpoint.value else Empty;
    var remainingRequests := |Elems(rows)| - |start.cache|;
    if checkpoint.Some? && !noticeSent {
      outcome := Aborted(NoticeFailed);
    } else if remainingRequests > 0 && limiter.maxCalls == 0 {
      outcome := Aborted(ZeroQuota);
    } else if start.processed == 0 && !noticeSent {
      outcome := Aborted(NoticeFailed);
    } else {
      var estimate := limiter.EstimateTime(remainingRequests);
      var job;
      job, clock := ProcessRows(rows, start, id, userId, env, service, limiter, store, now, latency);
      outcome := Deliver(userId, id, rows, start, job, env, estimate, finalSent, registry, store);
    }
  }

  /** The end of `process_file_background`: the length check, the result
      file, and on success the checkpoint and the `active_tasks` entry are
      dropped. */
  method Deliver(userId: int, id: string, rows: seq<string>, start: Progress, job: Job, env: Env,
                 estimate: int, finalSent: bool, registry: TaskRegistry, store: CheckpointStore)
    returns (outcome: FileOutcome)
    requires job == RunJob(Start(start), Pending(rows, start.processed), env)
    modifies registry, store
    ensures outcome.Finished? ==>
              && finalSent && outcome.job == job
              && |job.progress.phoneList| == |rows| && |job.progress.fullList| == |rows|
              && registry.active == old(registry.active) - {userId}
              && store.saved == old(store.saved) - {id}
    ensures !outcome.Finished? ==>
              && outcome.Aborted? && RanRows(outcome.fault) && outcome.fault.job == job
              && registry.active == old(registry.active) && store.saved == old(store.saved)
    // a checkpoint that fits the sheet always gives full result lists
    ensures finalSent && WellFormed(start) && start.processed <= |rows| ==> outcome.Finished?
  {
    if |job.progress.phoneList| != |rows| || |job.progress.fullList| != |rows| {
      if WellFormed(start) && start.processed <= |rows| {
        JobEndsAtLastRow(start, rows, env);
      }
      outcome := Aborted(LengthMismatch(job));
    } else if !finalSent {
      outcome := Aborted(DeliveryFailed(job));
    } else {
      store.Delete(id);
      registry.Finish(userId);
      outcome := Finished(job, estimate);
    }
  }

  /** `process_file_background` for one upload. `noticeSent` says whether
      the messages before the loop reach the user, `finalSent` whether
      writing and sending the result file succeeds. */
  method ProcessFile(userId: int, id: string, upload: Upload, env: Env, service: Service,
                     noticeSent: bool, finalSent: bool,
                     registry: TaskRegistry, store: CheckpointStore, limiter: SimpleRateLimiter,
                     now: int, latency: string -> nat)
    returns (outcome: FileOutcome, clock: int)
    requires Serves(env, service) && limiter.Valid()
    modifies registry, store, limiter
    ensures limiter.Valid()
    // only a delivered result frees the user for the next upload
    ensures outcome.Finished? ==> registry.active == old(registry.active) - {userId}
    ensures !outcome.Finished? ==> registry.active == old(registry.active)
    ensures upload.Unreadable? ==> outcome == Aborted(ReadError(upload.error)) && store.saved == old(store.saved)
    ensures upload.Sheet? && !upload.hasInnColumn ==> outcome == NoInnColumn && store.saved == old(store.saved)
    // a failed job keeps its checkpoint
    ensures outcome.Aborted? && id in old(store.saved) ==> id in store.saved
    // one that fails before the loop leaves the checkpoints as they were
    ensures outcome.Aborted? && !RanRows(outcome.fault) ==> store.saved == old(store.saved)
    // one that fails after it keeps the last checkpoint the loop saved
    ensures outcome.Aborted? && RanRows(outcome.fault) ==>
              && upload.Sheet?
              && (var start := Resumed(old(store.saved), id);
                  outcome.fault.job == RunJob(Start(start), Pending(Column(upload.cells), start.processed), env))
              && store.saved == StoreAfter(old(store.saved), id, outcome.fault.job.saved)
    // a delivered result holds one answer per row and the checkpoint is gone
    ensures outcome.Finished? ==>
              && upload.Sheet? && noticeSent && finalSent
              && (var start := Resumed(old(store.saved), id);
                  outcome.job == RunJob(Start(start), Pending(Column(upload.cells), start.processed), env))
              && |outcome.job.progress.phoneList| == |upload.cells|
              && |outcome.job.progress.fullList| == |upload.cells|
              && id !in store.saved
    ensures upload.Sheet? && upload.hasInnColumn && noticeSent && finalSent && Fits(old(store.saved), id, |upload.cells|) &&
            (limiter.maxCalls >= 1 || |Elems(Column(upload.cells))| <= |Resumed(old(store.saved), id).cache|)
            ==> outcome.Finished?
  {
    clock := now;
    if upload.Unreadable? {
      return Aborted(ReadError(upload.error)), clock;
    }
    if !upload.hasInnColumn {
      return NoInnColumn, clock;
    }
    outcome, clock := ProcessSheet(userId, id, Column(upload.cells), env, service, noticeSent, finalSent, registry, store, limiter,
                                   now, latency);
  }

  // -----------------------------------------------------------------------
  // The checkpoint id of an upload

  /** `create_checkpoint_id` as written: the id is a hash of the user, the
      file name and the second of the upload, so no two uploads share one.
      The hash is left out; the text it hashes stands for it. */
  function UploadCheckpointId(userId: int, fileName: string, second: nat): string
  {
    IntToString(userId) + "_" + fileName + "_" + NatToString(second)
  }

  /** Uploads in different seconds get different ids. */
  lemma UploadIdsDiffer(userId: int, fileName: string, t1: nat, t2: nat)
    requires t1 != t2
    ensures UploadCheckpointId(userId, fileName, t1) != UploadCheckpointId(userId, fileName, t2)
  {
    var head := IntToString(userId) + "_" + fileName + "_";
    if UploadCheckpointId(userId, fileName, t1) == UploadCheckpointId(userId, fileName, t2) {
      DropPrefix(head, NatToString(t1));
      DropPrefix(head, NatToString(t2));
      NatToStringInjective(t1, t2);
    }
  }

  /** With the id as written, a job interrupted after saving `c` is never
      picked up: the same file uploaded again, in a later second, starts
      from the first row with an empty cache. */
  lemma RetryStartsOver(userId: int, fileName: string, t1: nat, t2: nat, c: Progress)
    requires t1 < t2
    ensures var files := map[UploadCheckpointId(userId, fileName, t1) := c];
            Resumed(files, UploadCheckpointId(userId, fileName, t2)) == Empty
  {
    UploadIdsDiffer(userId, fileName, t1, t2);
  }

  /** The id the restart promise needs: the same user uploading the same
      file again finds the checkpoint of the interrupted job. */
  function ResumableCheckpointId(userId: int, fileName: string): string
  {
    IntToString(userId) + "_" + fileName
  }

  /** With that id, re-uploading after an interruption resumes from the last
      checkpoint and ends with the answers of an uninterrupted run. */
  lemma RetryResumes(userId: int, fileName: string, rows: seq<string>, n: nat, env: Env)
    requires n <= |rows| && RunJob(Start(Empty), rows[..n], env).saved.Some?
    ensures var c := RunJob(Start(Empty), rows[..n], env).saved.value;
            var start := Resumed(map[ResumableCheckpointId(userId, fileName) := c], ResumableCheckpointId(userId, fileName));
            start == c && Run(start, Pending(rows, start.processed), env) == Run(Empty, rows, env)
  {
    ResumeMatchesUninterrupted(rows, n, env);
  }

  /** `handle_file` followed by the background job it starts. The job's
      checkpoint id is made from the user, the file name and `second`, the
      second of the upload. */
  method HandleFile(userId: int, fileName: string, second: nat, upload: Upload, env: Env, service: Service,
                    noticeSent: bool, finalSent: bool,
                    registry: TaskRegistry, store: CheckpointStore, limiter: SimpleRateLimiter,
                    now: int, latency: string -> nat)
    returns (r: Submission, outcome: Option<FileOutcome>)
    requires Serves(env, service) && limiter.Valid()
    modifies registry, store, limiter
    ensures limiter.Valid()
    ensures r == AlreadyActive <==> userId in old(registry.active)
    ensures r == Unsupported <==> userId !in old(registry.active) && !Supported(fileName)
    ensures r != Started ==>
              outcome == None && store.saved == old(store.saved) && registry.active == old(registry.active)
    ensures r == Started ==> outcome.Some?
    // the user stays registered until the result is delivered
    ensures r == Started && !outcome.value.Finished? ==>
              registry.active == old(registry.active)[userId := UploadCheckpointId(userId, fileName, second)]
    ensures r == Started && outcome.value.Finished? ==>
              && registry.active == old(registry.active)
              && upload.Sheet?
              && (var id := UploadCheckpointId(userId, fileName, second);
                  var start := Resumed(old(store.saved), id);
                  outcome.value.job == RunJob(Start(start), Pending(Column(upload.cells), start.processed), env))
  {
    var id := UploadCheckpointId(userId, fileName, second);
    r := registry.Submit(userId, fileName, id);
    if r != Started {
      return r, None;
    }
    var result, clock := ProcessFile(userId, id, upload, env, service, noticeSent, finalSent, registry, store, limiter,
                                     now, latency);
    outcome := Some(result);
    if result.Finished? {
      RegisterThenDrop(old(registry.active), userId, id);
    }
  }

  /** `HandleFile` with the resumable checkpoint id: an upload of a file
      whose job was interrupted picks up that job's checkpoint. */
  method ResumableHandleFile(userId: int, fileName: string, upload: Upload, env: Env, service: Service,
                             noticeSent: bool, finalSent: bool,
                             registry: TaskRegistry, store: CheckpointStore, limiter: SimpleRateLimiter,
                             now: int, latency: string -> nat)
    returns (r: Submission, outcome: Option<FileOutcome>)
    requires Serves(env, service) && limiter.Valid()
    modifies registry, store, limiter
    ensures limiter.Valid()
    ensures r == AlreadyActive <==> userId in old(registry.active)
    ensures r == Unsupported <==> userId !in old(registry.active) && !Supported(fileName)
    ensures r != Started ==>
              outcome == None && store.saved == old(store.saved) && registry.active == old(registry.active)
    ensures r == Started ==> outcome.Some?
    // the user stays registered until the result is delivered
    ensures r == Started && !outcome.value.Finished? ==>
              registry.active == old(registry.active)[userId := ResumableCheckpointId(userId, fileName)]
    ensures r == Started && outcome.value.Finished? ==>
              && registry.active == old(registry.active)
              && upload.Sheet?
              && (var id := ResumableCheckpointId(userId, fileName);
                  var start := Resumed(old(store.saved), id);
                  outcome.value.job == RunJob(Start(start), Pending(Column(upload.cells), start.processed), env))
  {
    var id := ResumableCheckpointId(userId, fileName);
    r := registry.Submit(userId, fileName, id);
    if r != Started {
      return r, None;
    }
    var result, clock := ProcessFile(userId, id, upload, env, service, noticeSent, finalSent, registry, store, limiter,
                                     now, latency);
    outcome := Some(result);
    if result.Finished? {
      RegisterThenDrop(old(registry.active), userId, id);
    }
  }

  lemma RegisterThenDrop(m: map<int, string>, k: int, v: string)
    requires k !in m
    ensures m[k := v] - {k} == m
  {
    assert (m[k := v] - {k}).Keys == m.Keys;
  }

  /** A job that fails leaves its user registered, so the same user's next
      upload is refused until the bot restarts. */
  method FailedJobBlocksUser(userId: int, fileName: string, t1: nat, t2: nat, upload: Upload, env: Env, service: Service,
                             noticeSent: bool, finalSent: bool,
                             registry: TaskRegistry, store: CheckpointStore, limiter: SimpleRateLimiter,
                             now: int, latency: string -> nat)
    returns (first: Submission, outcome: Option<FileOutcome>, second: Submission)
    requires Serves(env, service) && limiter.Valid()
    modifies registry, store, limiter
    ensures first == Started ==> outcome.Some?
    ensures first == Started && !outcome.value.Finished? ==> second == AlreadyActive
    ensures first == Started && outcome.value.Finished? ==> second == Started
  {
    first, outcome := HandleFile(userId, fileName, t1, upload, env, service, noticeSent, finalSent,
                                 registry, store, limiter, now, latency);
    var again;
    second, again := HandleFile(userId, fileName, t2, upload, env, service, noticeSent, finalSent,
                                registry, store, limiter, now, latency);
  }
}
