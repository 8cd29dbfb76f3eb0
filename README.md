# E-commerce pipeline control layer in Dafny

This project models the control and decision layer of a daily e-commerce
data pipeline and proves properties about it. The pipeline has these parts:

- **Orchestrator.** It runs six step scripts in order, each with a bounded
  retry and backoff loop, and stops at the first step that fails.
- **Scheduler.** It guards each orchestrator run with a lock file and always
  starts the retention cleanup afterwards.
- **Monitor.** It grades a run's health from the time since the last run
  and from what the database reports.
- **Retention cleanup.** It deletes old files from the data and log
  directories.
- **Staging quality report.** It turns violation counts into a score and a
  grade from A to D.
- **Staging-to-production cleansing.** It normalises strings, categorises
  prices, filters rows and loads tables incrementally.
- **Analytics batch.** It splits an SQL file into statements and names the
  results `query1` to `queryN`.

One module per source file: `Orchestrator`, `Scheduler`, `Monitor`,
`Cleanup`, `Quality`, `Staging`, `Analytics`. Three shared modules sit
beside them:

- `Text` holds the string operations: `str.strip`, ASCII `str.lower`,
  `re.sub(r"\D", "", ...)`, substring tests, and splitting on `;`.
- `Rounding` holds `round(x, 2)`.
- `Wrappers` holds `Option`.

What the state-changing code becomes:

- The step runner (`Orchestrator.RunStep`) and the pipeline loop
  (`Orchestrator.RunPipeline`) are methods with loops. `RunStep` is proved
  equal to the specification function `StepSpec`, about which the retry
  properties are lemmas.
- The scheduler's lock file is a field of the class
  `Scheduler.PipelineScheduler`. Everything it does to the outside world is
  appended to a trace field, so the order of events can be stated.
- The cleanup walk, the monitor's query loop and the analytics loop are
  methods. Each is proved against a function that specifies it.
- A production table is a class `Staging.Table` whose `Load` method
  replaces or extends its rows.

Everything outside the program is an input:

- the subprocesses: an oracle from (script, attempt number) to return
  code, stderr and seconds taken;
- the clock: whole seconds per attempt, hours since the last run, file
  modification times;
- the database: query results as values, and `execute` functions for the
  SQL statements;
- the standard deviation the monitor computes.

Two behaviours of the code are worth stating on their own:

- **Volume check.** The code (`scripts/monitoring/pipeline_monitor.py:171-179`)
  compares today's count with the mean and the *sample* standard deviation
  of all counts, today's included. A check against the population standard
  deviation of the earlier days would flag `[100, 102, 98, 101, 99]` followed
  by `500`. The code as written does not:
  - that example is not flagged (`Monitor.SpikeExampleNotFlagged`);
  - with ten counts or fewer the check can never fire
    (`Monitor.ShortHistoryNeverFlagged`, via Samuelson's inequality);
  - eleven counts can fire (`Monitor.ElevenCountsCanFlag`).
- **Exit code.** The orchestrator's `main` never calls `sys.exit`, so a
  failed run still exits with status 0. The model gives it no exit code.

## Model

| member | source | states |
|---|---|---|
| Orchestrator.RunStep | scripts/pipeline_orchestrator.py:61-115 | the attempt loop with early return on success returns exactly the step run `StepSpec` describes: result, number of launches and sleeps |
| Orchestrator.MissingScript | scripts/pipeline_orchestrator.py:65-73 | a missing script fails with duration 0, 0 retries and "Script not found: <file>", without any launch or sleep |
| Orchestrator.SuccessOnAttempt | scripts/pipeline_orchestrator.py:75-97 | when attempt k is the first success: status success, `retry_attempts` = k - 1, no error message, exactly k launches, and the first k - 1 backoff sleeps |
| Orchestrator.AllAttemptsFail | scripts/pipeline_orchestrator.py:104-115 | when all three attempts fail: status failed, `retry_attempts` = 3, the error message is the last attempt's stripped stderr, three launches, sleeps [1, 2] |
| Orchestrator.StepBounds | scripts/pipeline_orchestrator.py:55-56 | in every case 0 <= `retry_attempts` <= 3; at most 3 launches; no launch exactly when the script is missing; one sleep fewer than launches; the sleeps are a prefix of `BACKOFF_SECONDS` (never indexed out of range) |
| Orchestrator.StepDuration | scripts/pipeline_orchestrator.py:90-105 | a step's duration is the seconds its launches took plus the seconds it slept |
| Orchestrator.RetryStep | scripts/pipeline_orchestrator.py:113-115 | a failed attempt before the last sleeps `BACKOFF_SECONDS[k-1]`, and the rest of the step is the loop from attempt k + 1 |
| Orchestrator.FinalStep | scripts/pipeline_orchestrator.py:93-111 | a successful or last attempt ends the loop with one launch and no sleep, giving the success or the failure record |
| Orchestrator.RunPipeline | scripts/pipeline_orchestrator.py:130-158 | the executed steps are a non-empty prefix of `PIPELINE_STEPS` in order, each with its `run_step` result; all but the last succeeded; a shorter prefix ends in a failure; status success iff every recorded step succeeded iff `errors` is empty; `errors` is empty or `["<last step> failed"]`; `warnings` is empty |
| Scheduler.OutcomeEvent | scripts/scheduler.py:84-91 | the scheduler logs success exactly when the orchestrator exited with code 0; otherwise it logs a failure or a raised error |
| Scheduler.PipelineScheduler.CreateLock | scripts/scheduler.py:56-57 | the lock holds the given pid and the creation is traced |
| Scheduler.PipelineScheduler.RemoveLock | scripts/scheduler.py:59-61 | the lock is absent afterwards; removal is traced only when there was a lock, so on an absent lock it changes nothing |
| Scheduler.PipelineScheduler.RunPipeline | scripts/scheduler.py:66-104 | a held lock means a skip: the lock is kept and only the skip is traced; a free lock means lock created, orchestrator launched, outcome logged, lock removed, cleanup launched, and the lock absent afterwards whatever the outcome |
| Scheduler.PipelineScheduler.Shutdown | scripts/scheduler.py:109-112 | the stop is logged first, then the lock is removed (traced only when there was one); afterwards the lock is absent and the exit code is 0 |
| Scheduler.GuardedRunOrder | scripts/scheduler.py:71-104 | in a guarded run the lock is created first and the orchestrator launched right after; the orchestrator is launched once and the lock removed once; cleanup is launched once, last, right after the removal |
| Scheduler.ConsecutiveTicks | scripts/scheduler.py:66-104 | two ticks on a free lock both run, even when the first run failed, and leave the lock absent |
| Scheduler.TickWhileHeld | scripts/scheduler.py:67-69 | a tick while another run holds the lock keeps the holder and launches neither the orchestrator nor cleanup |
| Monitor.LastExecutionCheck | scripts/monitoring/pipeline_monitor.py:83-91 | "critical" with one critical `last_execution` alert iff more than 25 hours passed, otherwise "ok" with none |
| Monitor.ConnectivityCheck | scripts/monitoring/pipeline_monitor.py:98-114 | "error" with one critical `database_connectivity` alert iff the connection failed |
| Monitor.FreshnessCheck | scripts/monitoring/pipeline_monitor.py:143-159 | "warning" with one `data_freshness` alert iff freshness data exists and staging lags over 24 h or production or warehouse over 1 h |
| Monitor.VolumeCheck | scripts/monitoring/pipeline_monitor.py:164-189 | with no counts there is no check; otherwise there is an anomaly, with its alert, iff today's count is outside mean ± 3 sd; the type is spike iff today is above the mean |
| Monitor.QualityScore | scripts/monitoring/pipeline_monitor.py:194-195 | the score lies in [0, 100]; it is 100 minus the violations while they are at most 100, and 0 from then on |
| Monitor.QualityCheck | scripts/monitoring/pipeline_monitor.py:197-205 | "degraded" with one `data_quality` alert iff the score is below 95 |
| Monitor.HealthOf | scripts/monitoring/pipeline_monitor.py:210-214 | critical iff some alert is critical; degraded iff there are alerts and none is critical; healthy iff there are none |
| Monitor.SignalsOf | scripts/monitoring/pipeline_monitor.py:121-136 | without a connection: no freshness data, no volume counts, no connection count, and quality counts of zero |
| Monitor.MaxLag | scripts/monitoring/pipeline_monitor.py:234-237 | the maximum lag is at least each layer's lag and is one of them |
| Monitor.Evaluate | scripts/monitoring/pipeline_monitor.py:262 | the overall health score is the quality score, and the health is the verdict on the alert list |
| Monitor.EvaluateAlerts | scripts/monitoring/pipeline_monitor.py:84-205 | alerts appear in check order (last execution, connectivity, freshness, volume, quality), at most one per check; an alert is critical iff it comes from one of the first two checks; each check has an alert iff its status says so |
| Monitor.EvaluateLastExecution | scripts/monitoring/pipeline_monitor.py:83-91 | in the whole report, critical with its alert iff more than 25 hours; at exactly 25 hours the check is ok |
| Monitor.EvaluateConnectFailed | scripts/monitoring/pipeline_monitor.py:102-136 | a failed connection gives "error", a critical alert and critical health, no freshness or volume check or alert, a quality score of 100, and no connection count |
| Monitor.EvaluateFreshness | scripts/monitoring/pipeline_monitor.py:143-159 | in the whole report, the freshness warning and its alert iff some layer lags past its limit; a maximum lag is reported iff there is freshness data |
| Monitor.EvaluateVolume | scripts/monitoring/pipeline_monitor.py:164-189 | in the whole report, an anomaly with its alert iff there are counts and today's count is outside the band; no counts means "ok" and no actual count; spike iff above the mean, else drop |
| Monitor.EvaluateQuality | scripts/monitoring/pipeline_monitor.py:194-205 | in the whole report, the score is in [0, 100] and is the overall health score; degraded with its alert iff it is below 95 |
| Monitor.EvaluateHealth | scripts/monitoring/pipeline_monitor.py:210-214 | healthy iff no alert was raised; critical iff more than 25 hours passed or the database was unreachable |
| Monitor.CriticalIffEarly | scripts/monitoring/pipeline_monitor.py:211 | when critical alerts are exactly those of the first two checks, some alert is critical iff one of those two checks raised one |
| Monitor.RunSqlQueries | scripts/monitoring/pipeline_monitor.py:44-60 | without a cursor nothing is run; with one, every statement of the split SQL text is executed once, in order, and its rows collected |
| Monitor.SingleCountNoAnomaly | scripts/monitoring/pipeline_monitor.py:174-179 | a single count is never an anomaly |
| Monitor.ConstantCountsNoAnomaly | scripts/monitoring/pipeline_monitor.py:173-179 | equal counts are never an anomaly, whatever the standard deviation |
| Monitor.AtMeanNotFlagged | scripts/monitoring/pipeline_monitor.py:176-179 | a count equal to the mean is never flagged |
| Monitor.AnomalyTypeIsSide | scripts/monitoring/pipeline_monitor.py:183 | for an anomaly, today is above the mean iff it is above the upper bound |
| Monitor.SamuelsonBound | scripts/monitoring/pipeline_monitor.py:172-174 | for the sample standard deviation sd of n counts, n (today - mean)^2 <= (n - 1)^2 sd^2 |
| Monitor.ShortHistoryNeverFlagged | scripts/monitoring/pipeline_monitor.py:170-179 | with 2 to 10 counts and the sample standard deviation of all of them, today's count is never an anomaly |
| Monitor.ElevenCountsCanFlag | scripts/monitoring/pipeline_monitor.py:170-179 | ten zero days followed by a 1 are an anomaly, so eleven counts are the fewest that can fire |
| Monitor.SpikeExampleNotFlagged | scripts/monitoring/pipeline_monitor.py:170-179 | counts 100, 102, 98, 101, 99, 500 are not flagged as written |
| Monitor.QualityExamples | scripts/monitoring/pipeline_monitor.py:194-199 | counts 2, 1, 0 score 97 and pass; 10, 0, 0 score 90 and are degraded |
| Monitor.QualityScoreMonotone | scripts/monitoring/pipeline_monitor.py:195 | more violations never give a higher quality score |
| Text.SplitQueries | scripts/monitoring/pipeline_monitor.py:53 | the statements are non-empty, stripped and contain no `;`; there are at most as many as `;`-separated pieces |
| Text.SplitJoin | scripts/transformation/generate_analytics.py:43 | `split(";")` loses nothing: joining the pieces gives the text, and there is one piece more than separators |
| Text.NonBlankStrippedAppend | scripts/transformation/generate_analytics.py:43 | the strip-and-drop-empty comprehension works piece by piece, so the statements keep their order |
| Text.Strip | scripts/transformation/staging_to_production.py:27 | the result has no leading or trailing whitespace and is cut from the left-trimmed input |
| Text.StripPadding | scripts/transformation/staging_to_production.py:27 | stripping whitespace padding off a stripped core gives exactly the core |
| Text.StripMember | scripts/transformation/staging_to_production.py:27 | every character of the stripped string occurs in the original |
| Text.StripIdempotent | scripts/transformation/staging_to_production.py:27 | stripping twice is stripping once |
| Text.Lower | scripts/transformation/staging_to_production.py:29 | same length; each letter 'A' to 'Z' becomes the letter 32 code points later ('a' to 'z'); every other character unchanged; no upper-case letter left |
| Text.LowerIdempotent | scripts/transformation/staging_to_production.py:29 | lower-casing twice is lower-casing once |
| Text.DigitsOnly | scripts/transformation/staging_to_production.py:31 | the result holds only digits and is no longer than the input |
| Text.DigitsOnlySingle | scripts/transformation/staging_to_production.py:31 | a single digit is kept and any other single character is dropped; with DigitsOnlyAppend this fixes the result for every string |
| Text.DigitsOnlyAppend | scripts/transformation/staging_to_production.py:31 | the digits of a concatenation are the digits of its parts, in order |
| Text.DigitsOnlyOfDigits | scripts/transformation/staging_to_production.py:31 | a string of digits is left unchanged |
| Text.DigitsOnlyIdempotent | scripts/transformation/staging_to_production.py:31 | removing non-digits twice is doing it once |
| Text.ContainsIff | scripts/cleanup_old_data.py:62-67 | Python's `in` on strings holds iff the needle occurs at some position |
| Cleanup.DefaultRetention | scripts/cleanup_old_data.py:39-40 | the default retention is 604800 seconds |
| Cleanup.DefaultRetentionDecision | scripts/cleanup_old_data.py:39-98 | with no `retention_days` configured, an unpreserved file whose unlink succeeds is deleted once it is more than 604800 seconds old, and kept (skipped) at 604800 seconds or less |
| Cleanup.ConfiguredRetentionDecision | scripts/cleanup_old_data.py:39-98 | with `retention_days` set to d, an unpreserved file whose unlink succeeds is deleted iff it is more than d * 86400 seconds old, and kept otherwise |
| Cleanup.AnyKeywordIn | scripts/cleanup_old_data.py:66-68 | the keyword loop with early return is true iff some keyword occurs in the name |
| Cleanup.ShouldPreserveIff | scripts/cleanup_old_data.py:58-70 | a name is preserved iff today's date occurs in it as written, or "summary", "report" or "metadata" occurs in its lower-cased form; otherwise it is not |
| Cleanup.UpperCaseReportPreserved | scripts/cleanup_old_data.py:59-68 | `QUALITY_REPORT.json` is preserved |
| Cleanup.TodayInNamePreserved | scripts/cleanup_old_data.py:62-63 | any name containing today's date is preserved |
| Cleanup.Decide | scripts/cleanup_old_data.py:88-106 | non-files are passed over; preserved files are skipped; a file is deleted, or its unlink fails, iff it is an unpreserved file older than the retention period; deletion only when the unlink succeeds |
| Cleanup.AgeAtRetentionKept | scripts/cleanup_old_data.py:98-106 | a file exactly as old as the retention period is kept |
| Cleanup.RunCleanup | scripts/cleanup_old_data.py:39-110 | the method's counters and removed files are those of the directory-by-directory specification under `RETENTION_SECONDS` computed from the configured `retention_days` (7 when absent) |
| Cleanup.DirTallyAccounts | scripts/cleanup_old_data.py:88-106 | in one directory, deleted + skipped + failed unlinks grow by the number of regular files; the deleted count grows by the number of newly removed files, each of which was decided Deleted |
| Cleanup.DirTallyRemoved | scripts/cleanup_old_data.py:88-102 | in one directory, the files removed are exactly its deletions, in listing order, after the files removed before |
| Cleanup.DeletionsAppend | scripts/cleanup_old_data.py:88-102 | the deletions of a listing split in two are the deletions of the first part followed by those of the second |
| Cleanup.DeletionsSingle | scripts/cleanup_old_data.py:96-102 | a single entry is among the deletions iff it is decided Deleted |
| Cleanup.CleanupAccounts | scripts/cleanup_old_data.py:83-106 | over all directories, deleted + skipped <= the number of regular files, deleted equals the number removed, and no removed file was preserved or within the retention period |
| Cleanup.CleanupRemoved | scripts/cleanup_old_data.py:83-102 | over all directories, the removed files are exactly the deletions of each existing directory, in the order of the directories and of their listings |
| Cleanup.NoFailuresCountsEveryFile | scripts/cleanup_old_data.py:88-106 | when every unlink succeeds, each regular file is counted exactly once |
| Rounding.RoundHundredths | scripts/quality_checks/validate_data.py:25 | `round(x, 2)` is a whole number of hundredths within half a hundredth of x (above x - 0.005, at most x + 0.005) |
| Rounding.RoundMonotone | scripts/quality_checks/validate_data.py:25 | rounding keeps order |
| Rounding.RoundPositive | scripts/transformation/staging_to_production.py:65-66 | a value rounds to something positive iff it is at least 0.005 |
| Quality.CalculateScore | scripts/quality_checks/validate_data.py:22-25 | the score is never negative, and is 100 when the total is 0 |
| Quality.ScoreBounds | scripts/quality_checks/validate_data.py:25 | for a positive total the score is at most 100; it is 100 with no violations and 0 with at least as many violations as the total |
| Quality.ScoreMonotone | scripts/quality_checks/validate_data.py:25 | more violations never raise the score |
| Quality.ScoreAtLeast | scripts/quality_checks/validate_data.py:25 | against 50000, the rounded score reaches n hundredths iff 2 v <= 10 (10000 - n) + 5 |
| Quality.GradeOf | scripts/quality_checks/validate_data.py:172-177 | A iff score >= 95; B iff 85 <= score < 95; C iff 70 <= score < 85; D iff score < 70 |
| Quality.GradeMonotone | scripts/quality_checks/validate_data.py:172-177 | a higher score never gets a worse grade |
| Quality.RunQualityChecks | scripts/quality_checks/validate_data.py:48-177 | each category's violations are the sum of its counts; the total is the sum of the five; the score is taken against 50000 and graded |
| Quality.CategoryStatus | scripts/quality_checks/validate_data.py:48-150 | each of the five categories is passed iff every count summed into it is 0 |
| Quality.AllPassedIff | scripts/quality_checks/validate_data.py:48-170 | every check passes iff no violation was counted, and then the score is 100 with grade A |
| Quality.GradeABoundary | scripts/quality_checks/validate_data.py:162-173 | grade A iff at most 2502 violations in total |
| Staging.CustomerNormalised | scripts/transformation/staging_to_production.py:26-35 | every string cell of a cleansed customer is stripped; the email has no upper-case letter; the phone holds only digits; non-strings pass through unchanged |
| Staging.PhoneKeepsDigits | scripts/transformation/staging_to_production.py:27-32 | stripping never removes a digit, so the phone keeps the original's digits in order |
| Staging.CleanseCustomerIdempotent | scripts/transformation/staging_to_production.py:23-37 | cleansing a cleansed customer again changes nothing |
| Staging.StripAllIdempotent | scripts/transformation/staging_to_production.py:26-27 | stripping every text column twice is doing it once |
| Staging.CleanseCustomersIdempotent | scripts/transformation/staging_to_production.py:23-37 | cleansing a cleansed customer frame again changes nothing |
| Staging.PriceCategoryOf | scripts/transformation/staging_to_production.py:51-56 | Budget iff price < 50; Mid-range iff 50 <= price < 200; Premium iff price >= 200, and also for a missing price |
| Staging.PriceCategoryMonotone | scripts/transformation/staging_to_production.py:51-56 | a higher price never gets a lower category |
| Staging.CleanseProduct | scripts/transformation/staging_to_production.py:40-60 | text columns are stripped; price and cost are rounded to cents; the category is that of the rounded price; no other column changes |
| Staging.RoundedCategoryBoundaries | scripts/transformation/staging_to_production.py:46-58 | because of rounding, Budget iff price < 49.995 and Premium iff price >= 199.995 |
| Staging.KeepPositive | scripts/transformation/staging_to_production.py:66 | the rows kept are exactly those whose column holds a positive number |
| Staging.KeepPositiveAppend | scripts/transformation/staging_to_production.py:66 | filtering a concatenation filters each part, so the kept rows keep their order |
| Staging.KeepPositiveIdempotent | scripts/transformation/staging_to_production.py:72 | filtering twice is filtering once |
| Staging.TransactionKept | scripts/transformation/staging_to_production.py:63-67 | a transaction with a numeric total is kept, with its total rounded, iff the total is at least 0.005 |
| Staging.CleanseTransactions | scripts/transformation/staging_to_production.py:63-67 | no more rows than the input, and every kept total is a whole number of cents of at least 0.01 |
| Staging.LineTotal | scripts/transformation/staging_to_production.py:74-78 | the line total is present iff quantity, unit price and discount are numbers; it is then a whole number of cents within half a cent of quantity * unit price * (1 - discount / 100) |
| Staging.ItemsConsistent | scripts/transformation/staging_to_production.py:70-80 | every cleansed item has a positive quantity, and its recalculated line total is within 0.01 of the exact product |
| Staging.CleanseItemsAppend | scripts/transformation/staging_to_production.py:70-80 | cleansing a concatenation of item frames cleanses each part, so the kept items keep their order |
| Staging.NewRows | scripts/transformation/staging_to_production.py:164-166 | no more rows than the input; a row is selected iff it is in the frame and its id is not already present |
| Staging.NewRowsAppend | scripts/transformation/staging_to_production.py:164-166 | selecting from a concatenation selects from each part, so the selected rows keep their order and their repetitions |
| Staging.NewRowsSingle | scripts/transformation/staging_to_production.py:164-166 | a single row is selected iff its id is not already present |
| Staging.IncrementalRerun | scripts/transformation/staging_to_production.py:160-177 | selecting again after the new ids were added selects nothing |
| Staging.Table.Load | scripts/transformation/staging_to_production.py:87-106 | an empty frame gives (0, skipped) and leaves the table alone; otherwise (len, success), with the table replaced for truncate and appended to for incremental |
| Staging.LoadNew | scripts/transformation/staging_to_production.py:160-170 | the table grows by exactly the rows whose ids were not yet in it, and the result counts them |
| Staging.LoadNewTwice | scripts/transformation/staging_to_production.py:160-181 | a second incremental load of the same frame inserts nothing |
| Analytics.QueryName | scripts/transformation/generate_analytics.py:48 | a query name is "query" followed by the decimal numeral of the number, which has no leading zero and reads back to the number |
| Analytics.QueryNameInjective | scripts/transformation/generate_analytics.py:48 | different numbers give different names, since the decimal numeral reads back to the number |
| Analytics.AssignNew | scripts/transformation/generate_analytics.py:52-56 | assigning a new key appends its entry at the end |
| Analytics.AssignExisting | scripts/transformation/generate_analytics.py:52-56 | assigning a present key replaces the value at the key's first position and leaves every other entry and the order unchanged |
| Analytics.RunAnalytics | scripts/transformation/generate_analytics.py:29-58 | one entry per split statement, named `query1` to `queryN` in order, holding that statement's result; the summary's `queries_executed` is N and its `query_results` are those entries |
| Analytics.NamesDistinct | scripts/transformation/generate_analytics.py:47-56 | the result names are pairwise different, so no entry overwrites another |
| Analytics.SplitQueriesOfJoin | scripts/transformation/generate_analytics.py:43 | a file of non-empty, stripped statements without `;`, joined by `;`, splits back into exactly those statements |

## Left out

- Subprocesses, the console, logging, the signal registration and the
  JSON, CSV and YAML files are not modelled. Their effects are oracle
  inputs or trace events.
- The database and all SQL text are inputs: query results are values, and
  executing a statement is a function parameter.
- Time is abstract:
  - attempts take whole seconds, and sleeps are recorded, not waited;
  - timestamps and `execution_time_ms` are not modelled;
  - the monitor's hours since the last run and the lags are inputs.
- Orchestrator.RunPipeline: `total_duration_seconds` is the sum of the
  step durations. The code reads the wall clock from start to end instead.
- Orchestrator.RunStep: the duration is a whole number of seconds, not
  `round(..., 2)` of a float.
- `statistics.stdev` is an input that must be the square root of the
  sample variance. There is no square root in the model.
- `round` and `.round(2)` are modelled as exact rounding to the nearest
  hundredth, a tie rounding up. Python and pandas round the binary float
  instead, which can round a decimal tie either way.
- Monitor.Evaluate: the report's hours and maximum lag are not rounded,
  and `expected_range` and `response_time_ms` are not part of the report.
- `str.title()` is a parameter. Its word-boundary rules are not modelled.
  The lemmas that need it assume it keeps strings stripped and is
  idempotent.
- Text.Lower: lower-casing covers only ASCII letters.
- Text.DigitsOnly: `\D` keeps only ASCII digits, whereas Python's `\d`
  also accepts other Unicode digits.
- Staging.CleanseProduct: `profit_margin` is not computed. Its division by
  a zero price yields infinities that the model does not represent.
- Staging.Table.Load: `TRUNCATE ... CASCADE` is modelled as emptying this
  one table. Its effect on dependent tables is not modelled.
- Exceptions from missing columns or keys are not modelled:
  - a missing `price` or `cost` column is a precondition;
  - a missing freshness layer is excluded by the shape of the freshness
    input;
  - a missing item operand yields a missing line total.
- The scheduler's `while True` polling loop and the `schedule` library are
  not modelled. `RunPipeline` is one tick. The lock test and the lock write
  are not atomic, so nothing is claimed about concurrent runs.
- Monitor.RunSqlQueries: without a cursor the code returns a 4-tuple of
  `None`. The model returns `None`, and `SignalsOf` supplies the fall-back
  values.
- Monitor.RunSqlQueries: with a cursor, SQL text that splits into other
  than four statements makes the unpacking in `main` raise `ValueError`,
  and text with no statement makes `main` use the fall-back values while
  connected. The model's `DbProbe` cannot express either case.
- Monitor.RunSqlQueries: a failing `cursor.execute` raises and aborts the
  monitor. The model's `execute` always returns rows.
- Orchestrator.RunStep: only a failing return code is handled. An
  `OSError` raised by `subprocess.run` would escape `run_step` and `main`,
  and no report would be written. The model has no such outcome.
- Scheduler.PipelineScheduler.RunPipeline: the cleanup launch in `finally`
  is unguarded, so an error raised while starting it would escape the tick.
  The model's launches always start.
- Cleanup.RetentionDays: `int(...)` truncates a fractional setting and
  raises on a non-number or on a missing `scheduler` section. The model
  takes `retention_days` as an optional whole number.
- The data generator, the ingestion and warehouse loaders and the
  placeholder quality-check script are not part of this model.
