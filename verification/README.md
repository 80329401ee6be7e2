# Run recorder, report statistics and artifact retention — a Dafny model

This project models the two self-contained pieces of logic of a Go end-to-end
UI test demo (playwright-go-demo):

- **The run recorder** (`utils/report_manager.go`). A `ReportManager` holds a
  list of Tests, and each Test holds an ordered list of Steps. It also has a
  "current test" and a "current step" cursor. `StartTest`, `StartStep`,
  `EndStepSuccess`, `EndStepFailure`, `LogSuccess` and `LogFailure` move this
  state machine. `GenerateReport` counts total, passed and failed steps and
  hands the data to an HTML template. Its detail section lists every test and
  step in recorded order and shows some fields only when they are present.
- **The artifact retention pass** (`utils/cleanup.go`). `cleanupDirectory`
  keeps the regular files whose lower-cased name ends in the extension. It
  orders them newest first and tries to delete every file after the first
  `keepCount`. Each delete gets at most three attempts, each one opening the
  file and, if that works, removing it and, if that works, re-checking that it
  is gone. `CleanupOldTestResults` runs three fixed
  categories in order and stops at the first error.

Modules, leaves first:

| file | module | content |
|---|---|---|
| wrappers.dfy | `Wrappers` | `Option` (Go's nil) and `Result` (Go's `(T, error)`) |
| report_manager.dfy | `ReportManager` | `TestStep`, `Test`, `Manager`, the representation invariant `Valid`, the six recorder operations |
| report_stats.dfy | `ReportStats` | the counting loop of `GenerateReport`, the reference counts, the counting identities and how each operation moves them |
| report_render.dfy | `ReportRender` | `GenerateReport`, the template's data record, the detail view, the pass rate |
| recorder_runs.dfy | `RecorderRuns` | arbitrary call sequences, the two cursor quirks, the three-step login flow of `main.go` |
| cleanup_select.dfy | `CleanupSelect` | candidate filter, newest-first sort, keep/target split, the tie-independent retention lemma |
| cleanup_retry.dfy | `CleanupRetry` | the bounded per-file delete loop over an outcome oracle |
| cleanup.dfy | `Cleanup` | `cleanupDirectory` and `CleanupOldTestResults` |

Modelling choices:

- The Go code keeps its cursors as pointers into its own slices. Here they are
  indices: `currentTest: Option<nat>` and `currentStep: Option<(nat, nat)>`.
  `ReportManager.Valid` is what those pointers guarantee by construction:
  - statuses are in {"Running", "Success", "Failure"};
  - the current test is the last test (and is unset only while there are no
    tests);
  - the current step is the last step of the test it lies in.

  The state operations require `Valid` and re-establish it. `RecorderRuns.Run`
  shows that every call sequence starting from `NewReportManager` keeps it.
- Statuses stay the source's strings, so the status domain is a proved
  invariant rather than a typing fact.
- Clock readings (`time.Now()`) are parameters (`Time = int`; 0 is Go's zero
  time). Durations are integer nanoseconds. An `error` is `Option<string>`.
- The filesystem is input. A directory is `Missing(mkdirErr)`,
  `Unreadable(err)` or `Listed(entries)`. Each entry has a name, an is-directory
  flag, a stat-succeeded flag and an integer modification time. What each
  delete attempt observes is given by an oracle `(target, attempt) -> Attempt`
  of open/remove/stat answers. Sleeps are counted, not taken.
- `sort.Slice` is not stable. The model sorts with an insertion sort, and
  `CleanupSelect.RetentionByAge` states what holds for every newest-first
  permutation, whatever order it gives equal modification times.
- Behaviour of the code worth noting:
  - The three categories are not independent. The first failing category ends
    `CleanupOldTestResults` (utils/cleanup.go:24-39).
  - A file whose open fails on all three attempts stays in place with no
    warning. The warning needs a failed `Remove` (utils/cleanup.go:109-145).
  - The login flow records the failure screenshot path even when the capture
    failed, because the capture's error is ignored (main.go:109-111).

## Model

| member | source | states |
|---|---|---|
| ReportManager.NewReportManager | utils/report_manager.go:43-49 | a new recorder has the given title and start time, no tests and no cursors, and satisfies the invariant |
| ReportManager.StartTest | utils/report_manager.go:52-61 | appends exactly one "Running" test with no steps and zero end time/duration, leaves earlier tests unchanged, makes the new test current, and leaves the current step as it was |
| ReportManager.StartStep | utils/report_manager.go:64-75 | no-op without a current test; otherwise appends exactly one "Running" step to the current test only, changes no other test or field, and makes that step current; keeps the invariant |
| ReportManager.EndStepSuccess | utils/report_manager.go:78-84 | no-op without a current step; otherwise only the current step changes, to status "Success" with the message; step counts and every other step are unchanged |
| ReportManager.EndStepFailure | utils/report_manager.go:87-95 | no-op without a current step; otherwise only the current step changes, to "Failure" with message, error and screenshot path |
| ReportManager.EndTest | utils/report_manager.go:98-117 | shared end-of-test update: no-op without a current test, else only the current test gets status, message, end time and duration, and the cursors stay |
| ReportManager.LogSuccess | utils/report_manager.go:98-106 | no-op without a current test; otherwise the current test only becomes "Success" with message, end time and duration, keeps its steps, name and start time, and stays current |
| ReportManager.LogFailure | utils/report_manager.go:109-117 | as LogSuccess with status "Failure"; the current test is not cleared |
| ReportStats.ComputeStats | utils/report_manager.go:145-158 | the counting loop yields TotalTests = number of tests, TotalSteps = sum of step counts, Passed = number of "Success" steps, Failed = number of "Failure" steps |
| ReportStats.CountInBound | utils/report_manager.go:150-157 | within one test, Success plus Failure steps never exceed the step count |
| ReportStats.PassedPlusFailedAtMostTotal | utils/report_manager.go:149-158 | Passed + Failed <= Total for any statuses, since one step adds to at most one bucket |
| ReportStats.StepsPartition | utils/report_manager.go:150-157 | in a test whose statuses are valid, Success + Failure + Running equals its step count |
| ReportStats.TotalIsPassedFailedRunning | utils/report_manager.go:149-158 | with valid statuses, Total = Passed + Failed + Running, so Total minus (Passed + Failed) is the number of "Running" steps |
| ReportStats.StartStepStats | utils/report_manager.go:64-75 | StartStep with a current test raises Total and Running by one and leaves Passed and Failed unchanged |
| ReportStats.EndStepStats | utils/report_manager.go:78-95 | ending the current step moves it from its previous status bucket to the new one and leaves Total unchanged |
| ReportStats.EndStepSuccessStats | utils/report_manager.go:78-84 | EndStepSuccess on a running step: Passed +1, Running -1, Failed and Total unchanged |
| ReportStats.EndStepFailureStats | utils/report_manager.go:87-95 | EndStepFailure on a running step: Failed +1, Running -1, Passed and Total unchanged |
| ReportRender.ReportPath | utils/report_manager.go:128-129 | the report path is "reports/report-" + timestamp + ".html", and the timestamp can be read back from it |
| ReportRender.GenerateReport | utils/report_manager.go:120-185 | a create error or a template error is returned as that error; otherwise the data record holds title, start time, tests and the four statistics, with Passed + Failed <= Total and, for valid statuses, Total - Passed - Failed = Running |
| ReportRender.PassRate | utils/report_manager.go:612-621 | the pass rate exists exactly when TotalSteps > 0, satisfies rate * Total = Passed * 100, lies in [0, 100] when Passed <= Total, and is 100 exactly when every step passed |
| ReportRender.StepDetails | utils/report_manager.go:702-724 | one view per step, in recorded order |
| ReportRender.Detail | utils/report_manager.go:677-729 | one view per test, in recorded order |
| ReportRender.StepDetail | utils/report_manager.go:702-723 | the step view loses only the timestamp; message shown iff non-empty, error iff non-nil, screenshot iff its path is non-empty |
| ReportRender.TestDetail | utils/report_manager.go:677-728 | a test view shows its name, status and start time, its duration iff non-zero, always its message, its steps block iff it has steps, and then every step, recoverable, in order |
| ReportRender.DetailShowsEveryStep | utils/report_manager.go:677-729 | the detail section shows exactly TotalSteps step views |
| RecorderRuns.Apply | utils/report_manager.go:52-117 | every recorder call keeps the invariant and only grows the record (no test or step disappears or changes identity) |
| RecorderRuns.Run | utils/report_manager.go:52-117 | every sequence of recorder calls keeps the invariant, so all statuses stay in the domain, and growth is append-only |
| RecorderRuns.RunCountsPartition | utils/report_manager.go:149-158 | after any call sequence from a fresh recorder, Total = Passed + Failed + Running |
| RecorderRuns.StartStepsWithoutTestRecordNothing | utils/report_manager.go:64-67 | any number of StartStep calls before the first StartTest leave the fresh recorder exactly as it was |
| RecorderRuns.StartStepNoopIffNoTests | utils/report_manager.go:64-75 | StartStep leaves the recorder unchanged exactly when no test was started |
| RecorderRuns.EndStepAfterStartTestHitsEarlierTest | utils/report_manager.go:52-84 | StartTest keeps the current step, so an EndStepSuccess right after it ends the last step of an earlier test while the new test stays empty and "Running" |
| RecorderRuns.EndStepFailureAfterStartTestHitsEarlierTest | utils/report_manager.go:52-95 | the same quirk for EndStepFailure, which writes its screenshot into the earlier test's step |
| RecorderRuns.StepAfterLogAttachesToEndedTest | utils/report_manager.go:64-117 | after LogSuccess or LogFailure the test stays current; a later StartStep appends a "Running" step to the ended test, which keeps its terminal status |
| RecorderRuns.Step | main.go:106-114 | one start-then-end action appends exactly one step to the current test, with "Success" or with "Failure" plus message, error and screenshot, keeps that test current and its step current, and changes nothing else; without a current test it records nothing |
| RecorderRuns.LoginSteps | main.go:99-139 | the three actions stop after the first failure; the current test gains one step per attempted action, all "Success" but a failing last one, which carries its screenshot; earlier steps and other tests are unchanged; the verdict is true iff all succeeded |
| RecorderRuns.LoginFlow | main.go:93-149 | the login flow records one test named after the run, with one step per attempted action, status "Failure" iff some action failed, the failing step's screenshot path, and the measured duration |
| RecorderRuns.LoginFlowStats | main.go:99-149 | in the login flow, Total = actions attempted, Failed is 0 or 1, Passed = 3 on success or attempted - 1 otherwise, and no step is left "Running" |
| CleanupSelect.Lower | utils/cleanup.go:81 | lower-casing keeps the length and lowers each character |
| CleanupSelect.Candidates | utils/cleanup.go:75-95 | the candidates are exactly the entries that are not directories, whose lower-cased name ends with the extension and whose stat succeeds, each with its multiplicity in the listing |
| CleanupSelect.CandidatesAppend | utils/cleanup.go:75-95 | the candidate filter keeps listing order: filtering a concatenation concatenates the filtered parts |
| CleanupSelect.CandidateSingle | utils/cleanup.go:76-89 | a single entry is kept iff it is a candidate |
| CleanupSelect.NonCandidatesUntouched | utils/cleanup.go:76-89 | directories, names without the extension and entries whose stat fails are never candidates |
| CleanupSelect.UpperCaseExtensionMatchesNothing | utils/cleanup.go:81 | the extension is not lower-cased, so one with an upper-case letter matches no file |
| CleanupSelect.Insert | utils/cleanup.go:98-100 | inserting into a newest-first list keeps it newest-first and adds exactly that entry |
| CleanupSelect.SortNewestFirst | utils/cleanup.go:98-100 | the sort returns a permutation of the candidates ordered by non-increasing modification time |
| CleanupSelect.SelectTargets | utils/cleanup.go:98-105 | kept + targets is a newest-first permutation of the candidates; min(K, keepCount) are kept, max(0, K - keepCount) targeted, and no kept file is older than a targeted one |
| CleanupSelect.RetentionByAge | utils/cleanup.go:98-105 | in every newest-first permutation, an entry with at least keepCount strictly newer candidates is targeted, and one with at most keepCount candidates at least as new (itself included) is kept |
| CleanupSelect.SelectTargetsByAge | utils/cleanup.go:98-105 | the same age characterisation for the selection the model computes |
| CleanupRetry.DeleteWithRetry | utils/cleanup.go:108-145 | 1 to 3 attempts, stopping at the first attempt where the open finds the file gone or the remove succeeds and the stat confirms it; one sleep per failed open or failed remove; the kept error is that of the last failed remove unless the file is gone; warns iff an error remains |
| CleanupRetry.NoRemoveFailureNoError | utils/cleanup.go:109-132 | the error is only set by a failed remove |
| CleanupRetry.NoRemoveFailureNoWarning | utils/cleanup.go:109-145 | when no attempt reaches a failing remove (for example every open fails), no warning is printed |
| CleanupRetry.LockedFileOutcome | utils/cleanup.go:112-123 | a file whose every open fails costs 3 attempts and 3 sleeps, stays in place, and draws no warning |
| CleanupRetry.UndeletableFileOutcome | utils/cleanup.go:126-145 | a file whose every remove fails costs 3 attempts and 3 sleeps, stays in place, and is warned about with the last remove error |
| Cleanup.JoinPath | utils/cleanup.go:85 | the child path is the directory, a separator and the name, each recoverable |
| Cleanup.DeleteTargets | utils/cleanup.go:103-146 | each target gets exactly one delete loop, in order, with its own answers; no failure stops the loop; at most 3 sleeps per target |
| Cleanup.CleanupDirectory | utils/cleanup.go:46-152 | a missing directory is created (success, no deletions) or its creation error returned; a listing error is returned; otherwise success, keeping the selection's kept files and deleting each target with the bounded loop |
| Cleanup.CleanupOldTestResults | utils/cleanup.go:14-43 | a working-directory error is returned first; then reports (".html", 1), screenshots (".png", 3) and videos (".webm", 1) are cleaned in order, and the first failing category's error ends the run |
| Cleanup.MissingDirectoryNoDeletions | utils/cleanup.go:53-58 | a missing directory that can be created gives success with zero deletions |
| Cleanup.FewFilesNoDeletions | utils/cleanup.go:103-149 | with no more candidates than keepCount nothing is deleted and every candidate is kept |
| Cleanup.ExcessFilesTargeted | utils/cleanup.go:98-105 | on any listed directory the pass succeeds and no kept file is older than a targeted one; with K > keepCount candidates exactly K - keepCount are targeted and keepCount are kept |

## Left out

- Browser automation (`pages/login_page.go`, `utils/screenshot.go`, browser launch in `main.go`): these wrap the playwright-go library. The login flow's outcomes are inputs to `RecorderRuns.LoginFlow`.
- `config/config.go`: JSON file I/O with defaults. The login flow takes no configuration.
- HTML, CSS and JavaScript presentation: markup, styling, the `lower` template function used for CSS classes, and time formatting. Only the data the template shows, and when it shows it, is modelled.
- ReportRender.PassRate: computed as an exact rational. The JavaScript floating-point percentage and its rounding are not modelled.
- Real filesystem and clock effects (`os.Stat`, `MkdirAll`, `os.Create`, `ReadDir`, `OpenFile`, `Remove`, `time.Now`, `time.Sleep`): all are inputs or counted events. The report directory's `MkdirAll` error is ignored, as in the source, so it is not an input.
- The report file name's timestamp is an opaque string. Two reports within one second get the same name and the second overwrites the first; this is not modelled.
- Template execution is an oracle that either succeeds or fails. A partly written file after a failure is not modelled.
- Go pointer aliasing and slice reallocation: replaced by the index cursors and `ReportManager.Valid`.
- Direct mutation of the exported `Tests` field by callers, which could break the cursor invariant, is not modelled.
- CleanupSelect.Lower: ASCII letters only. Go's Unicode `strings.ToLower`, which can change a name's length, is not modelled.
- Cleanup.JoinPath: plain concatenation with "/". The path cleaning of `filepath.Join` is not modelled. `ReportRender.ReportPath` writes out the cleaned form of its one fixed call.
- Cleanup.CleanupDirectory: `keepCount` is a `nat`. A negative count would make the Go loop index the slice at -1 and panic; no caller passes one.
- Symbolic links: an entry's directory flag and stat result are independent inputs, so a link is whatever those inputs say.
- Tie order of `sort.Slice`: the model's insertion sort fixes one order. `CleanupSelect.RetentionByAge` covers every newest-first order.
- Logging (`fmt.Printf`): only the per-file "warned" flag is kept.
- `RecorderRuns.LoginFlow` uses one clock value for every `time.Now()` call, because no property depends on timestamps.
- Generation of the report after the login flow (main.go:151-157): that is `ReportRender.GenerateReport` applied to the flow's recorder.
