# Batch INN lookup bot — a Dafny model of its job processor

`bot.py` is a Telegram bot that takes a spreadsheet with an INN column
("Результат (ИНН)"), looks every INN up through a paid search service, and
sends back the sheet with two new columns: the phones found for each INN and
the full text of each answer. This project models the part of the bot that
has invariants:

- **`SimpleRateLimiter`** (module `RateLimiting`). This is a class with the source's fields. Time is an
  integer clock passed in as `now`. `WaitIfNeeded` is proved against the counting function `Admit`.
  The waiting loop `Pause` is proved against the spec functions `Chunks` and `Reminders`. The number
  of pauses after `n` calls is derived in closed form, and `EstimateTime` is shown to cover them.
- **The two formatters of an answer** (module `Results`):
  - `extract_phones_from_result` is a method that fills a set field by field, then sorts it. Its
    result is proved to list exactly the phone-field values and pattern matches, once each, in
    Python's string order.
  - `format_full_result` is a method over mutable record objects. It pops `table_name` from each
    record, as the source does.
  - The phone regular expression is a parameter (`findall`).
- **The row loop of `process_file_background`** (modules `Batch` and `Background`):
  - The pure side is `Step` and `JobStep`, folded over the rows by `Run` and `RunJob`. It carries the
    state a checkpoint holds, plus the save and backup triggers.
  - The imperative side is `ProcessRow`, `ProcessRows`, `ProcessSheet` and `ProcessFile`, with the
    checkpoint files as a `CheckpointStore` (a map from checkpoint id to progress). These methods
    are proved equal to the pure side.
  - The lookup service is an oracle. `Service.answer` gives the HTTP reply for an INN, and
    `Classify` turns it into what `dyxless_query` returns.
  - The loop sees the service through `Env.entry`, the entry that reply is cached as. `Serves` ties
    the two together.
  - Proved about the loop:
    - resuming from any saved checkpoint gives the same outputs as an uninterrupted run;
    - exhaustion of the balance is sticky and has a cause;
    - every INN is paid for at most once per session;
    - a row that reaches the cache and the query saves a checkpoint once 50 rows have passed since the
      last save (rows that are not INNs, and every row after exhaustion, never save); backups are at
      least 100 rows apart;
    - the result has one line per row.
- **The `active_tasks` guard** (`TaskRegistry`). One job runs per user, and the user's entry is
  removed only when a result was delivered.
- **Display helpers** (module `Display`): the cells of `create_progress_bar`, `format_time` over whole
  seconds, and the cutting of long replies into 4096-character messages.

`Text` and `Arith` hold the string and arithmetic facts the other modules use.

Where the code and the design notes of the bot disagree, the model follows the code:

- A failed query is cached, so the same INN is not retried later in the job. An HTTP error or a
  connection error comes back from `dyxless_query` as a reply with a false status (bot.py:286-294),
  and is cached as "нет телефонов" and "ошибка: HTTP ошибка: N" or "ошибка: Ошибка соединения: …".
  Only an exception in the row itself, such as a 200 reply whose JSON is not an object, is cached as
  "ошибка при запросе" (bot.py:481-485).
- `active_tasks` is released only after the result file was sent (bot.py:621-623). Every error path
  (bot.py:633-635) and the missing-column return (bot.py:361-363) leave the user registered. A second
  upload from that user is then refused until the bot restarts (`FailedJobBlocksUser`).
- A job resumes from its last *saved* checkpoint, not from the last processed row. The save
  counter `last_checkpoint_save` restarts at 0, so a resumed job saves at its first row that reaches
  the trigger (`ResumeSavesAtOnce`).
- Resume needs the same checkpoint id. `handle_file` makes a new id for every upload from the user,
  the file name and the current second (bot.py:152-155, 795), so an upload never finds the checkpoint
  of an earlier one, and nothing at start-up resumes a job. The resume branch (bot.py:370-381) is
  unreachable through the handlers, although the bot promises a safe restart (bot.py:408, 753). This
  is the finding below. `HandleFile` builds the id as the source does; `ResumableHandleFile` is the
  handler with an id from the user and the file name only.
- The resume notice (bot.py:378-381) and the start notice (bot.py:399-413) are sent before the loop,
  outside its error handling. If one fails the job aborts (`NoticeFailed`) with its checkpoints as
  they were.

## Model

| member | source | states |
|---|---|---|
| RateLimiting.SimpleRateLimiter.constructor | bot.py:49-55 | A new limiter has the given quota, a wait of `wait_minutes * 60` seconds, a count of 0 and no cycle times |
| RateLimiting.Admit | bot.py:60-68 | The count after a call is between 1 and the old count plus one, and never exceeds the quota (or 1 for a quota of 0) |
| RateLimiting.SimpleRateLimiter.WaitIfNeeded | bot.py:57-101 | The count becomes `Admit(old count)`, within the quota. The first call opens the cycle at `now`. A call within the quota returns at once and changes no time. The call over the quota resets the count to 1 and returns at `max(now, reset_time + wait)`, which becomes the new reset time; it keeps the cycle start. Its notices are the limit message with the wait in minutes and seconds (when the wait is positive and there is a user and a callback), then `Reminders(wait)` and "pause over" (when there is a callback) |
| RateLimiting.Pause | bot.py:83-94 | The sleeps are exactly `Chunks(wait)` and the reminders exactly `Reminders(wait)`, or none without a callback |
| RateLimiting.Chunks | bot.py:84-87 | Definition: the sleeps of a wait, full minutes then the rest; `ChunksShape` states its properties |
| RateLimiting.Reminders | bot.py:89-94 | Definition: the time left after each sleep that does not end the wait; `RemindersShape` states its properties |
| RateLimiting.ChunksShape | bot.py:84-87 | The sleeps add up to the whole wait (0 if none). Each lasts between 1 and 60 seconds, and all but the last last 60 |
| RateLimiting.RemindersShape | bot.py:89-94 | There is one reminder fewer than sleeps. The k-th announces the time left after k+1 sleeps, which is still positive |
| RateLimiting.CyclesAreFull | bot.py:60-96 | After `n` calls from a fresh limiter the count is between 1 and the quota, and `pauses * quota + count == n` |
| RateLimiting.PausesClosedForm | bot.py:68-96 | `n` calls from a fresh limiter pause exactly `(n - 1) / quota` times |
| RateLimiting.TwentyFiveCallsPauseTwice | bot.py:68 | With a quota of 10, 25 calls pause twice: at the 11th and the 21st call |
| RateLimiting.SimpleRateLimiter.GetStatus | bot.py:103-128 | `used` is the count and `remaining` is `max(0, quota - count)`. An unused limiter reports all zeros but the quota. Time to reset is never negative and at most the wait once the reset time has passed |
| RateLimiting.SimpleRateLimiter.EstimateTime | bot.py:130-140 | 0 for no requests, and at least one second per request otherwise |
| RateLimiting.SimpleRateLimiter.EstimateMonotone | bot.py:130-140 | More requests never give a smaller estimate |
| RateLimiting.SimpleRateLimiter.EstimateCoversPauses | bot.py:130-140 | The estimate for `n` requests covers one second each plus every pause the limiter actually takes in `n` calls |
| Results.FieldPhonesElems | bot.py:305-315 | A field adds its non-empty values when its lower-cased name mentions "phone" or "телефон", plus the pattern matches of a string of 10 or more characters |
| Results.AddRecordPhones | bot.py:305-315 | The inner loop adds exactly the phones of the record's fields to the set |
| Results.InsertSortedCorrect | bot.py:317 | Inserting into a strictly sorted list keeps it strictly sorted and adds exactly the new element |
| Results.SortDedupCorrect | bot.py:317 | `sorted(set(xs))` is strictly sorted and has the elements of `xs` |
| Results.SortedListingUnique | bot.py:317 | A set has one strictly sorted listing, so the joined text does not depend on the order the phones were found in |
| Results.SortSet | bot.py:317 | The sorted listing of a set is strictly sorted and holds exactly the set |
| Results.PhonesText | bot.py:297-317 | Definition: the text `extract_phones_from_result` returns, empty for a failed reply or a count of 0; its properties are the lemmas below |
| Results.ExtractPhones | bot.py:297-317 | The method's text is `PhonesText` of the reply: empty for a failed reply or a count of 0, otherwise the sorted phones joined by ", " |
| Results.PhonesTextSorted | bot.py:301-317 | A successful reply's phone text joins a strictly sorted list that holds exactly the phones of all records |
| Results.PhoneFieldsExtracted | bot.py:306-310 | Every non-empty value of a phone-named field, and every non-empty element of such a list, is in the result |
| Results.ExtractedPhonesOrigin | bot.py:304-315 | Nothing else is in the result: each phone is a value of a phone-named field or a pattern match in a long string field |
| Results.RecordOrigin | bot.py:305-315 | Each phone of one record names the field it came from |
| Results.Without | bot.py:332 | Popping `table_name` leaves no such key, keeps every other field and adds none |
| Results.ListPreview | bot.py:338-341 | Definition: a list value as its first three items and "и ещё n", or all of them when there are at most three |
| Results.ListPreviewIgnoresTail | bot.py:338-341 | Values past the third never show: two lists of the same length that agree on their first three preview alike |
| Results.ListPreviewTellsLength | bot.py:338-341 | The preview still tells the length: two long lists with the same first three values and the same preview are equally long |
| Results.KeysUnique | bot.py:331-332 | A record decoded from a JSON object has each key once |
| Results.PopTakesOneField | bot.py:332 | In a record with unique keys, popping `table_name` removes the one field that holds it and keeps the others in order, or changes nothing when there is none |
| Results.RenderItem | bot.py:331-346 | One record's text is `RecordText` of its fields as they were, and the record loses its `table_name` |
| Results.RenderItems | bot.py:328-346 | The parts are the records' texts in order, and every record loses its `table_name` and nothing else |
| Results.RecordText | bot.py:331-346 | Definition: "База: " and the table label, then every non-empty field but `table_name`, joined by " \| " |
| Results.FullText | bot.py:320-348 | Definition: the text `format_full_result` returns, "ошибка: " and the message for a failed reply, empty for a count of 0 |
| Results.FormatFullResult | bot.py:320-348 | The method's text is `FullText` of the reply (error text, empty, or the records joined by " \|\| "). The records are popped exactly when the method gets past its two early returns |
| Batch.Classify | bot.py:276-294 | A 200 reply with an object body is returned as is. Any other status and any connection error give a reply with a false status |
| Batch.PaymentRequiredSignalsBalance | bot.py:286-287 | An HTTP 402 reply always trips the balance test of the row loop |
| Batch.QueryEntry | bot.py:460-485 | The entry is a balance error exactly when the reply's lower-cased message contains "insufficient balance", and then both texts say "нет денег на балансе". An exception caches "ошибка при запросе". Neither text is ever empty |
| Batch.ServedIsSound | bot.py:463-467 | Every balance entry the service produces writes "нет денег на балансе" in both columns |
| Batch.Step | bot.py:437-487 | One row of the loop: it adds exactly one to `processed` |
| Batch.JobStep | bot.py:437-547 | Definition: one row with its checkpoint and backup triggers; rows that `continue` early skip both |
| Batch.Run | bot.py:434 | Definition: `Step` over the rows in order |
| Batch.RunJob | bot.py:434 | Definition: `JobStep` over the rows in order |
| Batch.StepEffect | bot.py:437-487 | A row adds one output to each list and keeps the earlier ones. Only a row that queries teaches the cache, and only its own INN with the service's entry. Exhaustion is sticky and starts only at a balance entry. The row writes "нет денег на балансе", "это не ИНН" or its INN's cached texts |
| Batch.RunProcessed | bot.py:434-487 | Each row of a run adds one to `processed` |
| Batch.RunShape | bot.py:434-487 | A run adds one output per row to each list and keeps the earlier outputs. It keeps every cache entry it started with and keeps a consistent state consistent |
| Batch.RunAppend | bot.py:434 | Running two stretches of rows one after the other is running them together |
| Batch.ExhaustionIsSticky | bot.py:437-441 | Once the balance is exhausted, every later row writes "нет денег на балансе" and the cache does not change |
| Batch.ExhaustionCause | bot.py:450-467 | A run that exhausts the balance has a valid INN row whose cached entry, or whose first query, is a balance error |
| Batch.ExhaustionReason | bot.py:461-467 | That first query's reply from the service carries the balance signal |
| Batch.QueriedEntry | bot.py:459-485 | Every entry a run adds to the cache is the service's entry for that INN, error entries included |
| Batch.JobProgress | bot.py:489-547 | The checkpoint and backup triggers do not change what the rows produce |
| Batch.ExhaustedJobIsInert | bot.py:437-441 | An exhausted job neither queries, nor saves a checkpoint, nor sends a backup |
| Batch.StepKeepsLedger | bot.py:449-485 | One row keeps the ledger: the INNs queried are distinct, valid, and exactly the cache's new keys |
| Batch.RunKeepsLedger | bot.py:449-485 | A run keeps the ledger, and queries only INNs from its rows |
| Batch.QueriesOnce | bot.py:449-485 | A session queries each INN at most once. It queries exactly the INNs the cache learns, and only valid INNs of the sheet |
| Batch.PaidQueries | bot.py:524 | From scratch, the paid count `len(cache)` equals the queries made and is at most the number of distinct values in the column |
| Batch.JobStepSave | bot.py:489-499 | A row either leaves the saved checkpoint alone or saves its own state |
| Batch.SavedIsPrefixState | bot.py:489-499 | The last saved checkpoint is exactly the state the run had after some prefix of its rows, and `last_checkpoint_save` is that prefix's position |
| Batch.ResumeMatchesUninterrupted | bot.py:368-388 | Resuming from any checkpoint a job saved gives the same final state as a run that was never interrupted |
| Batch.SaveKeepsUp | bot.py:489-499 | After a row that reaches the trigger, fewer than 50 processed rows are unsaved |
| Batch.ResumeSavesAtOnce | bot.py:419 | A job resumed at row 49 or later saves a checkpoint at its first row that reaches the trigger |
| Batch.SaveCadence | bot.py:489-499 | A job from scratch whose rows all reach the trigger last saved at the largest multiple of 50 it processed |
| Batch.BackupsSpaced | bot.py:509-546 | The backups recorded were delivered, lie at least 100 rows apart, start at row 100 or later, and the last one is `last_file_send` |
| Batch.LoopEndsAtLastRow | bot.py:434-487 | From a consistent checkpoint that fits the sheet, the loop ends with one output per row |
| Batch.JobEndsAtLastRow | bot.py:588-589 | The job's result columns are as long as the sheet, so assigning them to the sheet cannot fail |
| Batch.SavedCheckpointsWellFormed | bot.py:491-498 | A job that starts consistent saves only consistent checkpoints |
| Background.CheckpointStore.constructor | bot.py:148-150 | A new store holds no checkpoint |
| Background.CheckpointStore.Save | bot.py:157-167 | Saving replaces the checkpoint under its id and touches no other |
| Background.CheckpointStore.Load | bot.py:169-181 | Loading gives the saved checkpoint, or nothing when there is none |
| Background.CheckpointStore.Delete | bot.py:183-191 | Deleting removes the checkpoint under its id only |
| Background.Lookup | bot.py:257-294 | A cache miss makes exactly one limiter call and caches the entry the service's reply gives (see bot.py:460-477) |
| Background.AnswerRow | bot.py:449-487 | A row that reaches the cache ends as `Step` says. The limiter counts a call exactly when the row misses the cache |
| Background.ProcessRow | bot.py:434-547 | One iteration is `JobStep`. It makes at most one limiter call, and writes the checkpoint file exactly when the row saves |
| Background.ProcessRows | bot.py:433-585 | The loop ends in the state `RunJob` gives from the start row. The limiter took one call per INN queried, and the checkpoint file holds the last state saved |
| Background.Column | bot.py:365 | The INN column has one stripped value per cell |
| Background.TaskRegistry.constructor | bot.py:45 | No user has an active job at start |
| Background.TaskRegistry.Submit | bot.py:775-798 | A user with an active job is refused and a file other than .xlsx or .csv is rejected, neither changing the registry. Otherwise the job is registered under the user |
| Background.TaskRegistry.Finish | bot.py:621-623 | Finishing removes the user's entry only |
| Background.ProcessSheet | bot.py:365-635 | The job runs the rows from its checkpoint. A delivered result has one line per row and deletes the checkpoint, and only a delivered result releases the user. A failed notice or a quota of 0 aborts with the checkpoints unchanged. A failure after the loop carries the job and leaves the checkpoint the loop saved last. A job is delivered when the notices and the result are sent, its checkpoint fits the sheet, and its quota is positive or its cache already holds as many INNs as the column has distinct values |
| Background.Deliver | bot.py:588-623 | The length check and the final send: a delivered job has one line per row and drops its checkpoint and its `active_tasks` entry; a failed one changes neither. A checkpoint that fits the sheet never fails the length check |
| Background.ProcessFile | bot.py:351-635 | An unreadable file aborts with the read error, and a sheet without the INN column stops before the job. Neither touches the checkpoints nor releases the user. Otherwise the outcome and the checkpoints are `ProcessSheet`'s on the stripped column |
| Background.UploadCheckpointId | bot.py:152-155 | Definition: the text `create_checkpoint_id` hashes, from the user, the file name and the second of the upload |
| Background.UploadIdsDiffer | bot.py:152-155 | Uploads in different seconds get different ids |
| Background.RetryStartsOver | bot.py:152-155 | With the id as written, re-uploading a file after its job was interrupted starts from an empty checkpoint |
| Background.ResumableCheckpointId | bot.py:152-155 | Definition: an id from the user and the file name only |
| Background.RetryResumes | bot.py:368-388 | With that id, re-uploading after an interruption picks up the saved checkpoint and ends as an uninterrupted run |
| Background.HandleFile | bot.py:772-798 | A user with an active job is refused and other file types are rejected, changing nothing. Otherwise the job runs under the id made from the user, the file name and the second of the upload; the user stays registered unless the result is delivered, and a delivered job is `RunJob` from the checkpoint found under that id (none from an earlier second, by `RetryStartsOver`) |
| Background.ResumableHandleFile | bot.py:772-798 | The same handler under `ResumableCheckpointId`: a delivered job is `RunJob` from the checkpoint saved under the user and file name, which `RetryResumes` shows ends as an uninterrupted run |
| Background.FailedJobBlocksUser | bot.py:776-781 | After a job that does not deliver, the same user's next upload is refused. After one that does, it is accepted |
| Display.Filled | bot.py:239 | Definition: `int(length * current / total)`, or 0 for a total that is not positive |
| Display.Cells | bot.py:240 | Definition: the filled cells, then the empty ones |
| Display.ProgressBar | bot.py:232-241 | Definition: the cells between brackets |
| Display.TruncDiv | bot.py:239 | `int(a / b)` truncates toward zero |
| Display.FilledBounds | bot.py:239 | Between the first and the last row, between 0 and `length` cells fill |
| Display.CellsWidth | bot.py:239-240 | The bar is `length` cells wide, and cell k is full exactly when k is below the filled count |
| Display.CellsFull | bot.py:239-240 | At the last row every cell is full |
| Display.CellsEmpty | bot.py:239-240 | At the first row every cell is empty |
| Display.FilledMonotone | bot.py:239 | More rows done never shrink the filled part |
| Display.FormatTime | bot.py:243-254 | Definition: the duration split into seconds, minutes or hours and written out |
| Display.Split | bot.py:243-254 | Under a minute the duration is seconds. Under an hour it is minutes and seconds that add back to it. Past that it is hours and minutes, exact to the minute |
| Display.HoursDropSeconds | bot.py:251-254 | Past an hour the text ignores the seconds |
| Display.SecondsNotMinutes | bot.py:245-250 | A duration in seconds never reads like one in minutes and seconds |
| Display.MinutesInjective | bot.py:247-250 | Two durations in minutes and seconds with the same text are equal |
| Display.FormatTimeInjective | bot.py:245-250 | Below an hour, different durations never read the same |
| Display.SplitMessage | bot.py:875-879 | The messages put back together give the text. A text of at most 4096 characters goes as one message. A longer one goes as ceil(len / 4096) messages, all of 4096 characters but a non-empty last one |
| Text.Lower | bot.py:306 | `str.lower()` keeps the length and lowers each character (ASCII and basic Cyrillic letters) |
| Text.StripShape | bot.py:365 | `str.strip()` gives a slice of the text with no whitespace at either end |
| Text.StripSkipsSpace | bot.py:365 | A leading whitespace character, the separators U+001C to U+001F included, is stripped away |
| Text.StripIdempotent | bot.py:365 | Stripping twice strips once |
| Text.LessTotal | bot.py:317 | Python's string order compares any two different strings |
| Text.LessTransitive | bot.py:317 | Python's string order is transitive |
| Text.NatToStringRoundTrip | bot.py:246 | The decimal text of a count reads back as the count |

## Findings

| source | as written | input that shows it | evidently intended | confidence | as-written member | corrected member |
|---|---|---|---|---|---|---|
| bot.py:152-155, 795 | the checkpoint id hashes the second of the upload, so every upload gets a new id | a job saves a checkpoint at row 50, the bot restarts, and the user uploads the same file again a second or more later: `RetryStartsOver` shows the new job starts from an empty checkpoint and pays for the first 50 rows again | the job resumes from its checkpoint. The evidence is the resume branch (bot.py:370-381), which loads a checkpoint under the job's own id and announces the position it resumes from, and cannot run as written; the start notice's "Можно безопасно перезапустить бота" (bot.py:408) points the same way, though it stands next to "Все промежуточные файлы сохранены в чате" (bot.py:409), and the backups in the chat would make a restart safe even without a resume. The docstring of `create_checkpoint_id` asks for a unique id (bot.py:153), so uniqueness was chosen on purpose and the resume was what it broke. The corrected id from the user and the file name has its own hazard: a different sheet uploaded under the same name picks up the other sheet's checkpoint, and its first rows carry that sheet's answers | medium, not executed | Background.RetryStartsOver | Background.RetryResumes |

## Left out

- Telegram I/O is not modelled. This covers the menus, the FSM states, progress and status messages, the
  editing and deletion of the progress message, and message captions. `SplitMessage` returns the list of messages it would send.
- The network, the service token and `aiohttp` are left out. A reply is a value given by `Service.answer`,
  and a query's duration is the `latency` parameter.
- Files are not modelled: pickle, Excel and CSV writing, `save_partial_results`, the partial and backup
  files on disk, their removal, and the removal of the upload. A backup's success is `Env.delivered`, and
  the final send is `finalSent`.
- Save failures (bot.py:165-167) and load failures (bot.py:179-181) are not modelled. The model's saves and loads always succeed.
- Reading the sheet with pandas is not modelled. A sheet is the `Upload` value: readable or not, with or
  without the INN column, and the INN cells as text.
- The MD5 hash of the checkpoint id (bot.py:152-155) is not modelled: `UploadCheckpointId` is the text it
  hashes, and the hash is taken to keep different texts apart.
- The `asyncio` lock, concurrent jobs and the background task are not modelled. One job is run at a time, to the end.
- Floating-point time is not modelled. The clock counts whole seconds, and sleeping is exact.
- The 0.5-second sleep after each query (bot.py:479) is not modelled.
- The progress update every 5 seconds (bot.py:549-585) is not modelled, and neither is its remaining-time estimate.
- Display.ProgressBar: the percentage after the bar is a float and is not modelled; only the bar's cells are.
- Display.FormatTime: only whole, non-negative seconds are modelled. The source also gets fractional elapsed times.
- The phone pattern of `re.findall` (bot.py:314) is the parameter `findall`. Its matches are not characterised.
- `str.isdigit` is ASCII digits only. `str.lower` covers ASCII and the basic Cyrillic letters.
  `str.strip` removes Python's whitespace set, the separators U+001C to U+001F included. Other Unicode
  behaviour is not modelled.
- The reply's outer fields are well-typed: `Response` has a boolean `status`, an integer `counts` and a
  list of objects as `data`. In the source a truthy non-boolean status counts as true, and a `null` `data`
  or an item that is not an object raises at bot.py:304 or bot.py:330 inside the row's error handling,
  which caches "ошибка при запросе" (bot.py:481-485). The model has no such reply; its only raising
  reply is a 200 whose JSON is not an object (`Classify`).
- The service answers an INN the same way in every session: `Env.entry` and `Env.delivered` do not
  change between the interrupted run and the resumed one. `ResumeMatchesUninterrupted` and `RetryResumes`
  rely on this. In the source the rows after the last checkpoint are queried and paid for again, and
  those replies may differ, for example once the balance has run out.
- Reply values are strings or lists of strings. `str()` of numbers and nested objects is not modelled.
  Neither is the `repr` escaping of a list `table_name`, nor a `null` message printed as "None".
- RateLimiting.SimpleRateLimiter.GetStatus: `next_reset_minutes` is modelled in whole seconds, not
  rounded minutes, and `cycle_time` in whole seconds.
- RateLimiting.SimpleRateLimiter.EstimateTime: the source divides by `max_calls`, which raises for a
  quota of 0. The model requires a positive quota for a positive request count, and `ProcessSheet`
  models that failure as `ZeroQuota`.
- A failed resume or start notice is one flag, `noticeSent`, for both messages.
- `bot_debug.py`, the single-query handler's own formatting (bot.py:850-871) and the `/status` and menu handlers are not part of this model.
