/** The batch lookup of `process_file_background`: every row of the INN column
    is answered from the job's cache, or by one paid query to the lookup
    service. Rows that reach the cache and the query save a checkpoint once
    50 rows have passed since the last save, and send a backup file once 100
    have passed since the last backup. A job started again under the same
    checkpoint id resumes from its checkpoint; the upload handler as written
    never does that (see `RetryStartsOver` in the Background module).

    The lookup service is an oracle: `Service.answer` gives the reply to a
    query for an INN, and the row loop sees it through `Env.entry`, the
    entry that reply is cached as (`Serves` ties the two). A checkpoint
    holds exactly what the loop carries between rows (`Progress`), and the
    checkpoint files form a map from checkpoint id to progress. */
module Batch {
  import opened Text
  import opened RateLimiting
  import opened Results

  const NO_BALANCE := "нет денег на балансе"
  const NOT_INN := "это не ИНН"
  const QUERY_FAILED := "ошибка при запросе"
  const NO_PHONES := "нет телефонов"
  const NOTHING_FOUND := "ничего не найдено"
  const BALANCE_SIGNAL := "insufficient balance"
  const CONNECTION_ERROR := "Ошибка соединения: "
  const HTTP_ERROR := "HTTP ошибка: "

  /** Rows between two checkpoints, and between two backup files. */
  const SAVE_INTERVAL := 50
  const SEND_INTERVAL := 100

  // -----------------------------------------------------------------------
  // One query to the lookup service

  /** The decoded body of an HTTP 200 reply. */
  datatype Body = Object(resp: Response) | NotObject | Undecodable(error: string)

  /** What one POST to the service comes back with. */
  datatype Reply = Http(code: int, body: Body) | Transport(error: string)

  /** What the loop gets from `dyxless_query`: a reply object, or an
      exception when the service answered with JSON that is not an object. */
  datatype Outcome = Returned(resp: Response) | Raises

  function Failure(message: string): Response
  {
    Response(false, Some(message), 0, [])
  }

  /** `dyxless_query` after the rate limiter has let the call through. */
  function Classify(reply: Reply): (o: Outcome)
    ensures reply.Http? && reply.code == 200 && reply.body.Object? ==> o == Returned(reply.body.resp)
    ensures (reply.Http? && reply.code != 200) || reply.Transport? ==> o.Returned? && !o.resp.status
  {
    match reply
    case Transport(e) => Returned(Failure(CONNECTION_ERROR + e))
    case Http(code, body) =>
      if code == 200 then
        match body
        case Object(r) => Returned(r)
        case NotObject => Raises
        case Undecodable(e) => Returned(Failure(CONNECTION_ERROR + e))
      else if code == 402 then Returned(Failure(BALANCE_SIGNAL))
      else Returned(Failure(HTTP_ERROR + IntToString(code)))
  }

  /** `str(result.get('message', ''))`. */
  function MessageText(resp: Response): string
  {
    if resp.message.Some? then resp.message.value else ""
  }

  /** The reply says the account has run out of money. */
  predicate BalanceSignal(resp: Response)
  {
    Contains(Lower(MessageText(resp)), BALANCE_SIGNAL)
  }

  /** An HTTP 402 reply always stops the job. */
  lemma PaymentRequiredSignalsBalance(body: Body)
    ensures Classify(Http(402, body)).Returned?
    ensures BalanceSignal(Classify(Http(402, body)).resp)
  {
    var s := BALANCE_SIGNAL;
    assert forall k :: 0 <= k < |s| ==> s[k] == ' ' || 'a' <= s[k] <= 'z';
    assert Lower(s) == s;
    ContainsItself(s);
  }

  /** A row value the loop will query: ten or twelve ASCII digits. */
  predicate ValidInn(inn: string)
  {
    AllDigits(inn) && (|inn| == 10 || |inn| == 12)
  }

  // -----------------------------------------------------------------------
  // The per-row state

  /** A cache entry: the two texts written for the INN and whether the
      lookup reported an exhausted balance. */
  datatype Entry = Entry(phones: string, full: string, balanceError: bool)

  /** What the loop carries from row to row, which is also exactly what a
      checkpoint holds. */
  datatype Progress = Progress(
    phoneList: seq<string>,
    fullList: seq<string>,
    cache: map<string, Entry>,
    processed: nat,
    balanceExhausted: bool)

  const Empty := Progress([], [], map[], 0, false)

  /** The lookup service as one job meets it: the reply to a query for each
      INN, and the phone pattern (`re.findall` with the bot's pattern). */
  datatype Service = Service(answer: string -> Reply, findall: string -> seq<string>)

  /** What the row loop needs to know of the world: the entry a query for
      an INN gets cached as, and whether sending the backup file written
      after `processed` rows succeeds. */
  datatype Env = Env(entry: string -> Entry, delivered: nat -> bool)

  /** The entry cached after querying the service. */
  function QueryEntry(o: Outcome, findall: string -> seq<string>): (e: Entry)
    ensures e.balanceError <==> o.Returned? && BalanceSignal(o.resp)
    ensures e.balanceError ==> e.phones == NO_BALANCE && e.full == NO_BALANCE
    ensures o.Raises? ==> e == Entry(QUERY_FAILED, QUERY_FAILED, false)
    ensures e.phones != "" && e.full != ""
  {
    match o
    case Raises => Entry(QUERY_FAILED, QUERY_FAILED, false)
    case Returned(resp) =>
      if BalanceSignal(resp) then Entry(NO_BALANCE, NO_BALANCE, true)
      else
        var phones := PhonesText(resp, findall);
        var full := FullText(resp);
        Entry(if phones != "" then phones else NO_PHONES, if full != "" then full else NOTHING_FOUND, false)
  }

  /** The entry a query for `inn` is cached as. */
  function ServiceEntry(service: Service, inn: string): Entry
  {
    QueryEntry(Classify(service.answer(inn)), service.findall)
  }

  /** The loop's entries are what querying the service gives. */
  ghost predicate Serves(env: Env, service: Service)
  {
    forall inn {:trigger ServiceEntry(service, inn)} :: env.entry(inn) == ServiceEntry(service, inn)
  }

  /** Every balance entry writes "no money" in both texts. */
  ghost predicate Sound(env: Env)
  {
    forall inn :: env.entry(inn).balanceError ==>
      env.entry(inn).phones == NO_BALANCE && env.entry(inn).full == NO_BALANCE
  }

  /** The entries of the service are sound. */
  lemma ServedIsSound(env: Env, service: Service)
    requires Serves(env, service)
    ensures Sound(env)
  {
    forall inn | env.entry(inn).balanceError
      ensures env.entry(inn).phones == NO_BALANCE && env.entry(inn).full == NO_BALANCE
    {
      assert env.entry(inn) == ServiceEntry(service, inn);
    }
  }

  /** The row gets past the exhausted and the not-an-INN branches, and so
      reaches the cache, the query and the checkpoint and backup triggers. */
  predicate Reaches(p: Progress, inn: string)
  {
    !p.balanceExhausted && ValidInn(inn)
  }

  /** The row costs a query: it reaches the cache and misses it. */
  predicate Queries(p: Progress, inn: string)
  {
    Reaches(p, inn) && inn !in p.cache
  }

  /** One iteration of the row loop, as far as the carried state goes. */
  function Step(p: Progress, inn: string, env: Env): (q: Progress)
    ensures q.processed == p.processed + 1
  {
    if p.balanceExhausted then
      Progress(p.phoneList + [NO_BALANCE], p.fullList + [NO_BALANCE], p.cache, p.processed + 1, true)
    else if !ValidInn(inn) then
      Progress(p.phoneList + [NOT_INN], p.fullList + [NOT_INN], p.cache, p.processed + 1, false)
    else if inn in p.cache then
      var e := p.cache[inn];
      if e.balanceError then
        Progress(p.phoneList + [NO_BALANCE], p.fullList + [NO_BALANCE], p.cache, p.processed + 1, true)
      else
        Progress(p.phoneList + [e.phones], p.fullList + [e.full], p.cache, p.processed + 1, false)
    else
      var e := env.entry(inn);
      var cache := p.cache[inn := e];
      if e.balanceError then
        Progress(p.phoneList + [NO_BALANCE], p.fullList + [NO_BALANCE], cache, p.processed + 1, true)
      else
        Progress(p.phoneList + [e.phones], p.fullList + [e.full], cache, p.processed + 1, false)
  }

  /** What one row does: it adds one output to each list, teaches the cache
      at most its own INN, and writes "no money", "not an INN" or the INN's
      cache entry. */
  lemma StepEffect(p: Progress, inn: string, env: Env)
    ensures var q := Step(p, inn, env);
              && |q.phoneList| == |p.phoneList| + 1 && q.phoneList[..|p.phoneList|] == p.phoneList
              && |q.fullList| == |p.fullList| + 1 && q.fullList[..|p.fullList|] == p.fullList
              // the cache only learns the row's own INN, and only when the row queries
              && (Queries(p, inn) ==> q.cache == p.cache[inn := env.entry(inn)])
              && (!Queries(p, inn) ==> q.cache == p.cache)
              // exhaustion is sticky, and a fresh one comes from the row's cache entry
              && (q.balanceExhausted <==> p.balanceExhausted || (Reaches(p, inn) && q.cache[inn].balanceError))
              // what the row writes
              && (q.balanceExhausted ==> q.phoneList[|p.phoneList|] == NO_BALANCE && q.fullList[|p.fullList|] == NO_BALANCE)
              && (!p.balanceExhausted && !ValidInn(inn) ==>
                    q.phoneList[|p.phoneList|] == NOT_INN && q.fullList[|p.fullList|] == NOT_INN)
              && (Reaches(p, inn) && !q.balanceExhausted ==>
                    q.phoneList[|p.phoneList|] == q.cache[inn].phones && q.fullList[|p.fullList|] == q.cache[inn].full)
  {
  }

  /** The carried state after the given rows, one after another. */
  function Run(p: Progress, rows: seq<string>, env: Env): Progress
  {
    if rows == [] then p else Step(Run(p, rows[..|rows| - 1], env), rows[|rows| - 1], env)
  }

  /** The rows `range(start_index, total_rows)` visits. */
  function Pending(rows: seq<string>, start: nat): seq<string>
  {
    if start <= |rows| then rows[start..] else []
  }

  /** A consistent checkpoint: one output per processed row, only INNs in
      the cache, and every balance entry written as such. */
  predicate WellFormed(p: Progress)
  {
    && |p.phoneList| == p.processed
    && |p.fullList| == p.processed
    && (forall inn :: inn in p.cache ==> ValidInn(inn))
    && (forall inn :: inn in p.cache && p.cache[inn].balanceError ==>
          p.cache[inn].phones == NO_BALANCE && p.cache[inn].full == NO_BALANCE)
  }

  /** Each row counts as processed. */
  lemma {:induction false} RunProcessed(p: Progress, rows: seq<string>, env: Env)
    ensures Run(p, rows, env).processed == p.processed + |rows|
  {
    if rows != [] {
      RunProcessed(p, rows[..|rows| - 1], env);
    }
  }

  /** Each row adds one output to each list, earlier outputs stay, and a
      consistent state stays consistent. */
  lemma {:induction false} RunShape(p: Progress, rows: seq<string>, env: Env)
    ensures Run(p, rows, env).processed == p.processed + |rows|
    ensures |Run(p, rows, env).phoneList| == |p.phoneList| + |rows|
    ensures |Run(p, rows, env).fullList| == |p.fullList| + |rows|
    ensures Run(p, rows, env).phoneList[..|p.phoneList|] == p.phoneList
    ensures Run(p, rows, env).fullList[..|p.fullList|] == p.fullList
    ensures p.cache.Keys <= Run(p, rows, env).cache.Keys
    ensures forall inn :: inn in p.cache ==> Run(p, rows, env).cache[inn] == p.cache[inn]
    ensures WellFormed(p) && Sound(env) ==> WellFormed(Run(p, rows, env))
  {
    if rows != [] {
      var init := rows[..|rows| - 1];
      RunShape(p, init, env);
      var q := Run(p, init, env);
      var r := Step(q, rows[|rows| - 1], env);
      StepEffect(q, rows[|rows| - 1], env);
      PrefixTrans(r.phoneList, q.phoneList, p.phoneList);
      PrefixTrans(r.fullList, q.fullList, p.fullList);
    }
  }

  /** The rows of a file split anywhere: running the second part from the
      state the first part left gives the state of running them all. */
  lemma {:induction false} RunAppend(p: Progress, a: seq<string>, b: seq<string>, env: Env)
    ensures Run(p, a + b, env) == Run(Run(p, a, env), b, env)
  {
    if b == [] {
      assert a + b == a;
    } else {
      RunAppend(p, a, b[..|b| - 1], env);
      AppendInit(a, b);
    }
  }

  function NoBalanceRows(n: nat): (r: seq<string>)
    ensures |r| == n && forall k :: 0 <= k < n ==> r[k] == NO_BALANCE
  {
    seq(n, k => NO_BALANCE)
  }

  /** Once the balance is exhausted every further row is written off as
      "no money" and nothing else changes: no query, no cache entry. */
  lemma {:induction false} ExhaustionIsSticky(p: Progress, rows: seq<string>, env: Env)
    requires p.balanceExhausted
    ensures Run(p, rows, env) == Progress(p.phoneList + NoBalanceRows(|rows|), p.fullList + NoBalanceRows(|rows|),
                                          p.cache, p.processed + |rows|, true)
  {
    if rows != [] {
      ExhaustionIsSticky(p, rows[..|rows| - 1], env);
      var n := |rows|;
      assert p.phoneList + NoBalanceRows(n - 1) + [NO_BALANCE] == p.phoneList + NoBalanceRows(n);
      assert p.fullList + NoBalanceRows(n - 1) + [NO_BALANCE] == p.fullList + NoBalanceRows(n);
    }
  }

  /** The balance runs out only for a reason: some valid INN of the rows was
      cached with a balance error before the job began, or was queried and
      its entry carries the balance error. */
  lemma {:induction false} ExhaustionCause(p: Progress, rows: seq<string>, env: Env) returns (i: int)
    requires !p.balanceExhausted && Run(p, rows, env).balanceExhausted
    ensures 0 <= i < |rows| && ValidInn(rows[i])
    ensures var inn := rows[i];
              (inn in p.cache && p.cache[inn].balanceError)
              || (inn !in p.cache && env.entry(inn).balanceError)
  {
    var init := rows[..|rows| - 1];
    var q := Run(p, init, env);
    if q.balanceExhausted {
      i := ExhaustionCause(p, init, env);
      assert rows[i] == init[i];
    } else {
      i := |rows| - 1;
      var inn := rows[i];
      RunShape(p, init, env);
      if inn in q.cache {
        if inn !in p.cache {
          QueriedEntry(p, init, env, inn);
        }
      }
    }
  }

  /** With the service behind the entries: the balance runs out only when a
      valid INN of the rows was cached with a balance error before the job
      began, or was queried and the reply carried the balance message. */
  lemma ExhaustionReason(p: Progress, rows: seq<string>, env: Env, service: Service) returns (i: int)
    requires Serves(env, service)
    requires !p.balanceExhausted && Run(p, rows, env).balanceExhausted
    ensures 0 <= i < |rows| && ValidInn(rows[i])
    ensures var inn := rows[i];
              (inn in p.cache && p.cache[inn].balanceError)
              || (inn !in p.cache && Classify(service.answer(inn)).Returned? &&
                  BalanceSignal(Classify(service.answer(inn)).resp))
  {
    i := ExhaustionCause(p, rows, env);
    assert env.entry(rows[i]) == ServiceEntry(service, rows[i]);
  }

  /** A cache entry the job added came from querying its INN. */
  lemma {:induction false} QueriedEntry(p: Progress, rows: seq<string>, env: Env, inn: string)
    requires inn in Run(p, rows, env).cache && inn !in p.cache
    ensures Run(p, rows, env).cache[inn] == env.entry(inn)
  {
    var init := rows[..|rows| - 1];
    if inn in Run(p, init, env).cache {
      QueriedEntry(p, init, env, inn);
    }
  }

  // -----------------------------------------------------------------------
  // The job: checkpoints, backups and the queries made

  /** The carried state plus what the loop keeps only for this session:
      the two trigger counters (both start at 0, also after a resume), the
      checkpoint last saved in this session, the row counts at which a
      backup file went out, and the INNs queried, in order. */
  datatype Job = Job(
    progress: Progress,
    lastSave: int,
    lastSend: int,
    saved: Option<Progress>,
    backups: seq<nat>,
    queried: seq<string>)

  function Start(p: Progress): Job
  {
    Job(p, 0, 0, None, [], [])
  }

  /** One iteration of the row loop. Rows that take the exhausted or the
      not-an-INN branch `continue` before both triggers. */
  function JobStep(j: Job, inn: string, env: Env): Job
  {
    var p := Step(j.progress, inn, env);
    if !Reaches(j.progress, inn) then j.(progress := p)
    else
      var queried := if Queries(j.progress, inn) then j.queried + [inn] else j.queried;
      var save := p.processed - j.lastSave >= SAVE_INTERVAL;
      var lastSave := if save then p.processed else j.lastSave;
      var saved := if save then Some(p) else j.saved;
      var send := p.processed - j.lastSend >= SEND_INTERVAL && p.processed > 0 && env.delivered(p.processed);
      var lastSend := if send then p.processed else j.lastSend;
      var backups := if send then j.backups + [p.processed] else j.backups;
      Job(p, lastSave, lastSend, saved, backups, queried)
  }

  function RunJob(j: Job, rows: seq<string>, env: Env): Job
  {
    if rows == [] then j else JobStep(RunJob(j, rows[..|rows| - 1], env), rows[|rows| - 1], env)
  }

  /** The triggers do not feed back into the rows: the carried state of a
      job is the plain run of its rows. */
  lemma {:induction false} JobProgress(j: Job, rows: seq<string>, env: Env)
    ensures RunJob(j, rows, env).progress == Run(j.progress, rows, env)
  {
    if rows != [] {
      JobProgress(j, rows[..|rows| - 1], env);
    }
  }

  /** Once exhausted, a job neither queries nor saves nor sends a backup. */
  lemma {:induction false} ExhaustedJobIsInert(j: Job, rows: seq<string>, env: Env)
    requires j.progress.balanceExhausted
    ensures var r := RunJob(j, rows, env);
              r.lastSave == j.lastSave && r.saved == j.saved && r.lastSend == j.lastSend &&
              r.backups == j.backups && r.queried == j.queried && r.progress.balanceExhausted
  {
    if rows != [] {
      ExhaustedJobIsInert(j, rows[..|rows| - 1], env);
    }
  }

  predicate Distinct(s: seq<string>)
  {
    forall a, b :: 0 <= a < b < |s| ==> s[a] != s[b]
  }

  /** What the job has queried so far is exactly what its cache gained
      over `known`, each INN once, and every one a valid INN. */
  predicate Ledger(j: Job, known: set<string>)
  {
    && known <= j.progress.cache.Keys
    && Distinct(j.queried)
    && Elems(j.queried) == j.progress.cache.Keys - known
    && (forall k :: 0 <= k < |j.queried| ==> ValidInn(j.queried[k]))
  }

  lemma StepKeepsLedger(j: Job, inn: string, env: Env, known: set<string>)
    requires Ledger(j, known)
    ensures Ledger(JobStep(j, inn, env), known)
  {
    if Queries(j.progress, inn) {
      ElemsAppend(j.queried, [inn]);
      assert inn !in Elems(j.queried);
    }
  }

  lemma {:induction false} RunKeepsLedger(j: Job, rows: seq<string>, env: Env, known: set<string>)
    requires Ledger(j, known)
    ensures Ledger(RunJob(j, rows, env), known)
    ensures forall inn :: inn in RunJob(j, rows, env).queried ==> inn in j.queried || inn in rows
  {
    if rows != [] {
      var init := rows[..|rows| - 1];
      RunKeepsLedger(j, init, env, known);
      StepKeepsLedger(RunJob(j, init, env), rows[|rows| - 1], env, known);
    }
  }

  /** The job pays for each distinct INN at most once: the queries are
      distinct valid INNs of the file, none of them known to the cache the
      job started with, and together they are exactly what the cache gained. */
  lemma QueriesOnce(p: Progress, rows: seq<string>, env: Env)
    ensures var r := RunJob(Start(p), rows, env);
              && Distinct(r.queried)
              && Elems(r.queried) == r.progress.cache.Keys - p.cache.Keys
              && p.cache.Keys <= r.progress.cache.Keys
              && (forall k :: 0 <= k < |r.queried| ==> ValidInn(r.queried[k]) && r.queried[k] in rows)
  {
    RunKeepsLedger(Start(p), rows, env, p.cache.Keys);
  }

  /** A row either leaves the saved checkpoint alone or saves the state it
      leaves. */
  lemma JobStepSave(j: Job, inn: string, env: Env)
    ensures var r := JobStep(j, inn, env);
              && r.progress == Step(j.progress, inn, env)
              && ((r.saved == j.saved && r.lastSave == j.lastSave) ||
                  (r.saved == Some(r.progress) && r.lastSave == r.progress.processed))
  {
  }

  /** The saved checkpoint of job `r`, which ran `rows` from `p`, is the
      carried state right after one of those rows, and the save counter is
      the row count it was saved at. */
  predicate SavedFrom(p: Progress, rows: seq<string>, r: Job, env: Env)
  {
    && (r.saved.None? ==> r.lastSave == 0)
    && (r.saved.Some? ==>
          && r.lastSave == r.saved.value.processed
          && p.processed <= r.saved.value.processed <= p.processed + |rows|
          && r.saved.value == Run(p, rows[..r.saved.value.processed - p.processed], env))
  }

  /** One more row keeps the saved checkpoint a state the rows passed through. */
  lemma SavedFromStep(p: Progress, rows: seq<string>, r: Job, env: Env)
    requires rows != [] && SavedFrom(p, rows[..|rows| - 1], r, env)
    requires r.progress == Run(p, rows[..|rows| - 1], env)
    ensures SavedFrom(p, rows, JobStep(r, rows[|rows| - 1], env), env)
  {
    var init, x := rows[..|rows| - 1], rows[|rows| - 1];
    var rr := JobStep(r, x, env);
    JobStepSave(r, x, env);
    if rr.saved != r.saved || rr.lastSave != r.lastSave {
      RunProcessed(p, rows, env);
      PrefixWhole(rows);
    } else if r.saved.Some? {
      PrefixOfInit(rows, r.saved.value.processed - p.processed);
    }
  }

  /** A checkpoint saved by a job is the carried state right after one of
      its rows, and the save counter is the row count it was saved at. */
  lemma {:induction false} SavedIsPrefixState(p: Progress, rows: seq<string>, env: Env)
    ensures SavedFrom(p, rows, RunJob(Start(p), rows, env), env)
  {
    if rows != [] {
      var init := rows[..|rows| - 1];
      SavedIsPrefixState(p, init, env);
      JobProgress(Start(p), init, env);
      SavedFromStep(p, rows, RunJob(Start(p), init, env), env);
    }
  }

  /** Resuming from any checkpoint a job saved, the rows not yet processed
      bring the carried state to exactly what an uninterrupted job reaches. */
  lemma ResumeMatchesUninterrupted(rows: seq<string>, n: nat, env: Env)
    requires n <= |rows| && RunJob(Start(Empty), rows[..n], env).saved.Some?
    ensures var c := RunJob(Start(Empty), rows[..n], env).saved.value;
              Run(c, Pending(rows, c.processed), env) == Run(Empty, rows, env)
  {
    var prefix := rows[..n];
    var c := RunJob(Start(Empty), prefix, env).saved.value;
    SavedIsPrefixState(Empty, prefix, env);
    var m := c.processed;
    PrefixOfPrefix(rows, n, m);
    RunAppend(Empty, rows[..m], rows[m..], env);
    SplitAt(rows, m);
  }

  /** After a row that reaches the triggers, fewer than 50 rows have been
      processed since the last checkpoint of the session. */
  lemma SaveKeepsUp(j: Job, inn: string, env: Env)
    requires Reaches(j.progress, inn)
    ensures var r := JobStep(j, inn, env);
              r.progress.processed - r.lastSave < SAVE_INTERVAL
  {
  }

  /** Because the counters restart at 0, a job resumed at row 49 or later
      saves a checkpoint on its first row that reaches the triggers. */
  lemma ResumeSavesAtOnce(p: Progress, inn: string, env: Env)
    requires p.processed >= SAVE_INTERVAL - 1 && Reaches(p, inn)
    ensures RunJob(Start(p), [inn], env).saved == Some(Step(p, inn, env))
  {
    assert [inn][..0] == [];
  }

  /** A row either leaves the backups alone or sends one, delivered, at
      least 100 rows after the previous one. */
  lemma JobStepBackups(j: Job, inn: string, env: Env)
    ensures var r := JobStep(j, inn, env);
              || (r.backups == j.backups && r.lastSend == j.lastSend)
              || (&& r.backups == j.backups + [r.lastSend]
                  && r.lastSend - j.lastSend >= SEND_INTERVAL && r.lastSend > 0 && env.delivered(r.lastSend))
  {
  }

  /** Backups go out in order, at least 100 rows apart, the first after at
      least 100 rows of the session, each one delivered; the send counter is
      the last of them. */
  predicate Spaced(backups: seq<nat>, lastSend: int, delivered: nat -> bool)
  {
    && (forall k :: 0 <= k < |backups| ==> delivered(backups[k]) && backups[k] > 0)
    && (|backups| > 0 ==> backups[0] >= SEND_INTERVAL && lastSend == backups[|backups| - 1])
    && (|backups| == 0 ==> lastSend == 0)
    && (forall k :: 0 <= k < |backups| - 1 ==> backups[k + 1] - backups[k] >= SEND_INTERVAL)
  }

  /** A delivered backup sent at least 100 rows after the last keeps the
      backups spaced. */
  lemma SpacedSnoc(backups: seq<nat>, lastSend: int, delivered: nat -> bool, n: nat)
    requires Spaced(backups, lastSend, delivered)
    requires n - lastSend >= SEND_INTERVAL && n > 0 && delivered(n)
    ensures Spaced(backups + [n], n, delivered)
  {
    var b := backups + [n];
    forall k | 0 <= k < |b| - 1 ensures b[k + 1] - b[k] >= SEND_INTERVAL {
      if k + 1 < |backups| {
        assert b[k + 1] == backups[k + 1] && b[k] == backups[k];
      }
    }
  }

  /** The backups of a session are spaced. */
  lemma {:induction false} BackupsSpaced(j: Job, rows: seq<string>, env: Env)
    requires j.backups == [] && j.lastSend == 0
    ensures var r := RunJob(j, rows, env);
              Spaced(r.backups, r.lastSend, env.delivered)
  {
    if rows != [] {
      var init := rows[..|rows| - 1];
      BackupsSpaced(j, init, env);
      var r0 := RunJob(j, init, env);
      var r := JobStep(r0, rows[|rows| - 1], env);
      assert RunJob(j, rows, env) == r;
      JobStepBackups(r0, rows[|rows| - 1], env);
      if r.backups != r0.backups {
        SpacedSnoc(r0.backups, r0.lastSend, env.delivered, r.lastSend);
      }
    }
  }

  /** A consistent checkpoint that belongs to the sheet brings the loop to
      the sheet's last row, with one answer per row. */
  lemma LoopEndsAtLastRow(start: Progress, rows: seq<string>, env: Env)
    requires WellFormed(start) && start.processed <= |rows|
    ensures var p := Run(start, Pending(rows, start.processed), env);
              p.processed == |rows| && |p.phoneList| == |rows| && |p.fullList| == |rows|
  {
    RunShape(start, Pending(rows, start.processed), env);
  }

  /** The same for the job: from a consistent checkpoint of the sheet it ends
      with one answer per row. */
  lemma JobEndsAtLastRow(start: Progress, rows: seq<string>, env: Env)
    requires WellFormed(start) && start.processed <= |rows|
    ensures var p := RunJob(Start(start), Pending(rows, start.processed), env).progress;
              |p.phoneList| == |rows| && |p.fullList| == |rows|
  {
    JobProgress(Start(start), Pending(rows, start.processed), env);
    LoopEndsAtLastRow(start, rows, env);
  }

  /** Every checkpoint a job saves from a consistent start is consistent. */
  lemma SavedCheckpointsWellFormed(p: Progress, rows: seq<string>, env: Env)
    requires WellFormed(p) && Sound(env)
    ensures var r := RunJob(Start(p), rows, env);
              r.saved.Some? ==> WellFormed(r.saved.value)
  {
    SavedIsPrefixState(p, rows, env);
    var r := RunJob(Start(p), rows, env);
    if r.saved.Some? {
      RunShape(p, rows[..r.saved.value.processed - p.processed], env);
    }
  }

  lemma {:induction false} DistinctElems(s: seq<string>)
    requires Distinct(s)
    ensures |Elems(s)| == |s|
  {
    if s != [] {
      var init := s[..|s| - 1];
      DistinctElems(init);
      ElemsAppend(init, [s[|s| - 1]]);
      InitLast(s);
      assert Elems([s[|s| - 1]]) == {s[|s| - 1]};
    }
  }

  lemma SubsetCard(a: set<string>, b: set<string>)
    requires a <= b
    ensures |a| <= |b|
  {
    assert b == a + (b - a);
  }

  /** A job started from scratch pays for exactly as many queries as its
      cache has entries (the count the bot bills in its captions), and for
      no more than the sheet has distinct values. */
  lemma PaidQueries(rows: seq<string>, env: Env)
    ensures var r := RunJob(Start(Empty), rows, env);
              |r.progress.cache| == |r.queried| <= |Elems(rows)|
  {
    QueriesOnce(Empty, rows, env);
    var r := RunJob(Start(Empty), rows, env);
    DistinctElems(r.queried);
    assert r.progress.cache.Keys == Elems(r.queried);
    assert |r.progress.cache| == |r.progress.cache.Keys|;
    SubsetCard(Elems(r.queried), Elems(rows));
  }

  /** Every row reaches the triggers: none is invalid and the balance never
      runs out. */
  predicate AllReach(p: Progress, rows: seq<string>, env: Env)
  {
    forall i :: 0 <= i < |rows| ==> Reaches(Run(p, rows[..i], env), rows[i])
  }

  lemma CadenceStep(n: int)
    requires n >= 1
    ensures (if n - (n - 1) / SAVE_INTERVAL * SAVE_INTERVAL >= SAVE_INTERVAL then n
             else (n - 1) / SAVE_INTERVAL * SAVE_INTERVAL) == n / SAVE_INTERVAL * SAVE_INTERVAL
  {
  }

  lemma JobStepLastSave(j: Job, inn: string, env: Env)
    requires Reaches(j.progress, inn)
    ensures var n := Step(j.progress, inn, env).processed;
              JobStep(j, inn, env).lastSave == if n - j.lastSave >= SAVE_INTERVAL then n else j.lastSave
  {
  }

  /** A job from scratch over rows that all reach the triggers saves after
      rows 50, 100, 150, ...: the last checkpoint is the state after the last
      full fifty rows. */
  lemma {:induction false} SaveCadence(rows: seq<string>, env: Env)
    requires AllReach(Empty, rows, env)
    ensures RunJob(Start(Empty), rows, env).lastSave == |rows| / SAVE_INTERVAL * SAVE_INTERVAL
  {
    if rows != [] {
      var n := |rows|;
      var init := rows[..n - 1];
      assert AllReach(Empty, init, env) by {
        forall i | 0 <= i < |init|
          ensures Reaches(Run(Empty, init[..i], env), init[i])
        {
          assert init[..i] == rows[..i];
        }
      }
      SaveCadence(init, env);
      JobProgress(Start(Empty), init, env);
      RunShape(Empty, init, env);
      var r := RunJob(Start(Empty), init, env);
      assert Reaches(r.progress, rows[n - 1]);
      JobStepLastSave(r, rows[n - 1], env);
      CadenceStep(n);
    }
  }
}
