# adb-syncer core, modelled in Dafny

adb-syncer keeps a local folder and a folder on an Android device in step
over `adb`. A *pipeline* is one configured sync job. It has:

- a local path and a device path;
- a direction: `local_to_device`, `device_to_local`, or anything else, which
  counts as bidirectional;
- extension include/exclude lists;
- an age limit in days;
- an optional plugin.

This project models the decision logic of the program and proves what it
promises:

- **Records** (`records.dfy`). The file record, the lossy minute-level
  equality test, and the path-keyed inventory dictionaries.
- **Filter** (`filter.dfy`). Both inventory collectors apply the same filter
  stage: an age threshold, then the include and exclude lists, then the
  plugin's veto.
- **Reconcile** (`reconcile.dfy`). The comparison of two inventories. It is
  given twice: as a reference plan (a set of operations defined path by path)
  and as the comparison loop, with proofs that the two agree.
- **Executor** (`executor.dfy`). The remote-directory pre-pass and the
  transfer loop over an abstract transport. It covers the stop flag, progress
  reports and the counters.
- **Engine** (`engine.dfy`). One whole `sync` run.
- **Plugins and DateInterval** (`plugins.dfy`, `date_interval.dfy`). The
  base plugin's default hooks, and the date-interval plugin's period
  arithmetic.
- **AdbParse** (`adb_parse.dfy`). The parsers for the output of
  `adb devices`, `ls -la`, `find -printf` and `stat -c`. Each one has a
  round-trip proof against a printer of that output.
- **ConfigStore** (`config_store.dfy`). The configuration manager's list
  edits and the load/save document shape.
- **SyncQueue** (`sync_queue.dfy`). The main window's sync queue: FIFO
  order, one sync at a time, duplicate refusal and the auto-sync cooldown.
- **PipelineForm** (`pipeline_form.dfy`). The edit dialog: how a pipeline
  fills the form, and how the form is read back.
- **Support modules**:
  - `wrappers.dfy`: `Option` and `Result`.
  - `text.dfy`: Python's `strip`, `split`, `split(maxsplit=…)`, `join`,
    `lower`, `isdigit`/`int` and `splitext`.
  - `paths.dfy`: Windows `os.path.join`/`dirname`.
  - `pipelines.dfy`: the pipeline record.

Things the model takes as parameters:

- The clock.
- Date parsing and formatting.
- JSON encoding and decoding.
- The local directory walk.
- The device transport: path exists, `mkdir -p`, push/pull.
- The plugin loader.

Every other member is a pure function or a method over immutable values.

## Model

| member | source | states |
|---|---|---|
| Records.IsSameMeaning | core/sync_engine.py:227-234 | The test is symmetric. Two records it calls the same have equal sizes and times less than a minute apart. Equal size and time are the same. Times 59 s apart inside one minute still count as the same, but 1 s across a minute boundary is a difference. |
| Records.IndexByPath | core/sync_engine.py:239-240 | The dictionary has every listed path as a key, and each key maps to a listed record carrying that path. |
| Records.IndexByPathLastWins | core/sync_engine.py:239-240 | When a path repeats, the dictionary keeps the last record with it. |
| Records.KeyOrder | core/sync_engine.py:244 | The dictionary's iteration order lists each key once, and lists exactly the dictionary's keys. |
| Filter.Threshold | core/sync_engine.py:66-69 | With a positive day count and a clock past it, a file is too old exactly when it was modified more than `days * 86400` seconds before now. A day count of 0 or less disables the age check. So does a clock that has not yet passed that many seconds, since the threshold is then not positive. |
| Filter.Screen | core/sync_engine.py:152-172 | A record is kept iff its file passes age, extensions and plugin. The plugin hook is consulted for exactly the files that passed age and extensions, never for a rejected one. |
| Filter.CollectLocal | core/sync_engine.py:141-180 | Every kept local record is an admitted walked file's own path, size, time and full path, and every admitted file is kept. |
| Filter.DeviceItems | core/sync_engine.py:188-198 | Directories and entries of unknown time are dropped before any check. Every other entry becomes an item named by its bare name. |
| Filter.CollectDevice | core/sync_engine.py:182-225 | A kept device record comes from a listed plain file with a known time, under its bare name, and passed all three stages. Every such file is kept. |
| Plugins.BasePlugin | plugins/base_plugin.py:4-34 | The config is stored unchanged. Paths resolve to the pipeline's own `local` and `device`. Every file is accepted, every conflict gets `skip`, and the start hook does nothing. |
| Reconcile.DirectionOf | core/sync_engine.py:242-265 | The two one-way names are recognised; any other text is bidirectional. |
| Reconcile.PlanMembers | core/sync_engine.py:242-295 | An operation is in the plan iff the per-path rule at its own path calls for it. |
| Reconcile.CompareOne | core/sync_engine.py:244-295 | One loop step emits exactly the operation the rules call for. A decider is consulted iff the path is a bidirectional conflict (not same, local strictly older). |
| Reconcile.Enumerate | core/sync_engine.py:267-268 | The union of keys is visited once each, in an unspecified order. |
| Reconcile.WalkOrder | core/sync_engine.py:242-268 | The keys walked are the local keys, the device keys, or their union, depending on the direction. None is repeated. |
| Reconcile.Walk | core/sync_engine.py:242-297 | Each emitted operation is the rule's operation at its path, there is at most one per path, and every operation the rules call for is emitted. Deciders are consulted once per conflict path. |
| Reconcile.CompareFiles | core/sync_engine.py:236-297 | The operation list holds exactly the reference plan's operations for the two dictionaries, one per path. The paths consulted are exactly the conflicts. |
| Reconcile.PlanOnePerPath | core/sync_engine.py:239-297 | The plan never holds two operations for one path. |
| Reconcile.OneWayPlans | core/sync_engine.py:242-264 | `local_to_device` only uploads and `device_to_local` only downloads. |
| Reconcile.PushPullMirror | core/sync_engine.py:242-264 | Pushing A onto B uploads a record iff pulling from A into B, with the roles swapped, downloads it. |
| Reconcile.InSyncPlanEmpty | core/sync_engine.py:249-273 | Inventories with the same paths, each pair the same file, call for nothing in any direction. |
| Reconcile.BasePluginMasksCallback | core/sync_engine.py:277-290 | With a plugin that keeps the base conflict rule, the caller's callback is never heard, and no conflict yields an operation. |
| Reconcile.PushIdempotent | core/sync_engine.py:242-253 | Once a push plan has been carried out with sizes and times kept, a second push calls for nothing. |
| Reconcile.PullIdempotent | core/sync_engine.py:254-263 | Once a pull plan has been carried out with sizes and times kept, a second pull calls for nothing. |
| Reconcile.BidirectionalIdempotent | core/sync_engine.py:264-295 | Once a bidirectional plan has been carried out, with uploads landing on the device and downloads landing locally, a second bidirectional run calls for nothing. A conflict left alone stays a conflict, and the same resolvers leave it alone again. |
| Executor.TargetsPrepared | core/sync_engine.py:86-124 | Every upload's target directory is one of the directories the pre-pass checks. Every download lands on a local path ending in the record's relative path. |
| Executor.RunEntries | core/sync_engine.py:98-104 | Item i of a run is reported with index i and the full total, in order. |
| Executor.Tally | core/sync_engine.py:106-127 | `upload` counts the successful pushes, `download` the successful pulls and `error` the failed transfers. `skip` stays 0, so every started item is counted exactly once. |
| Executor.CreateRemoteDirs | core/sync_engine.py:84-95 | `mkdir` is called exactly on the distinct parent directories of uploads that do not exist, each once. |
| Executor.Transfer | core/sync_engine.py:97-127 | The stop flag ends the loop before the first item it is seen raised at. Each started item is reported before its transfer, and the counters tally exactly the started items. |
| Executor.Execute | core/sync_engine.py:83-127 | The pre-pass runs only when there are operations. The transfer loop then behaves as `Transfer` states. |
| Engine.ActivePlugin | core/sync_engine.py:31-33 | No plugin is loaded when the pipeline names none or an empty name. Otherwise the plugin is the loader's answer for that name and the pipeline's plugin configuration, which is none for an unknown name. |
| Engine.ResolvedPaths | core/sync_engine.py:46-48 | Without a plugin, the paths are the pipeline's own. With one, they are whatever its `on_path_resolve` returns or raises. |
| Engine.Sync | core/sync_engine.py:18-139 | Among the failures modelled, a run fails iff path resolution raises, the local directory is missing, or the device path is missing and cannot be created. On success: the operations are the plan for the filtered inventories, one per path. `mkdir` runs on the missing upload directories other than a root just created. The started items and statistics are as the executor states. |
| DateInterval.Init | plugins/date_interval.py:19-28 | Each of `base_path`, `interval_days` and `date_format` is its own configured value, whatever its type, or the default `''`, `10` or `%m-%d`. A start date that is missing, not a string or unparsable falls back to 2026-01-01. |
| DateInterval.PeriodStart | plugins/date_interval.py:33-35 | For a positive interval the period start is ≤ today < start + interval, also before `start_date`. The distance to the start is a multiple of the interval. |
| DateInterval.ResolvePaths | plugins/date_interval.py:30-40 | For the modelled values (strings, integers, booleans and other JSON values), resolution succeeds iff the interval is a non-zero integer or `true`, and the format and base path are strings. The local path is unchanged. The device path is the base joined with the formatted period start, with no backslash. |
| DateInterval.DevicePathShape | plugins/date_interval.py:36-38 | With a base not ending in a separator and a plain formatted date, the device path is base + `/` + date. |
| DateInterval.OnSyncStart | plugins/date_interval.py:42-48 | `mkdir` runs on the resolved device path only when it does not exist. The hook fails exactly when path resolution fails. |
| DateInterval.Make | plugins/date_interval.py:6-48 | The plugin keeps the base filter and conflict hooks and replaces path resolution with the period rule. |
| Paths.JoinShape | core/sync_engine.py:118 | A rooted tail replaces the head. Otherwise the join starts with the head and always ends with the tail. |
| Paths.DirnameOfChild | core/sync_engine.py:89 | The parent of `dir/name` for a bare name is `dir`. |
| Paths.ToSlashesJoin | plugins/date_interval.py:38 | Converting a backslash join to slashes gives head, `/`, converted tail. |
| AdbParse.ParseDevices | core/adb_manager.py:42-55 | A non-zero status raises. Otherwise fewer serials come back than output lines, and none contains a tab. |
| AdbParse.AttachedRoundTrip | core/adb_manager.py:42-55 | Parsing what `adb devices` prints for devices in any state returns the serials of exactly those whose state is `device`, in order. Offline, unauthorised and other devices are dropped. |
| AdbParse.DevicesRoundTrip | core/adb_manager.py:49-55 | Parsing what `adb devices` prints returns every serial, in order. |
| AdbParse.ParseLsLine | core/adb_manager.py:117-145 | A blank line, or one with fewer than eight columns after at most seven splits, gives nothing. A kept name is the last column, is never `.` or `..`, is non-empty and does not start with whitespace. The size is the fifth column when it is all digits, else 0. |
| AdbParse.ListDirectory | core/adb_manager.py:108-146 | A failed command gives `[]`. Otherwise entries never outnumber lines and never include `.` or `..`. |
| AdbParse.ListingRoundTrip | core/adb_manager.py:115-145 | Parsing a printed listing returns every row but `.` and `..`, in order, with the right kind, size, date text, and names with inner spaces. |
| AdbParse.RowParsed | core/adb_manager.py:120-145 | A printed row parses to its own entry, or to nothing for `.`/`..`. |
| AdbParse.ParseFindLine | core/adb_manager.py:164-176 | A blank line or one with fewer than three tab fields gives nothing. Otherwise the line raises exactly when the size is not an integer or the time not a number. A kept path never holds a tab. |
| AdbParse.ListFilesRecursive | core/adb_manager.py:159-187 | A failed command or blank output gives `[]`. No returned path holds a tab. |
| AdbParse.FindRoundTrip | core/adb_manager.py:161-177 | Parsing what `find -printf` prints returns every file, in order, with its path, size and parsed time. |
| AdbParse.GetFileInfo | core/adb_manager.py:212-226 | As written: a failed command, or output of fewer than three words, gives nothing. Otherwise it raises exactly when the second or third word is not an integer. |
| AdbParse.StatRegularFileRaises | core/adb_manager.py:216-220 | As written, the output for every regular file raises. |
| AdbParse.GetFileInfoFixed | core/adb_manager.py:215-226 | Corrected parser: a failed command, or output of fewer than three words, gives nothing. Otherwise it raises exactly when one of the last two words is not an integer. |
| AdbParse.StatRoundTrip | core/adb_manager.py:214-226 | The corrected parser reads back any `stat` output, one-word type or several. `is_dir` holds iff the type mentions `directory`. |
| AdbParse.StatOneWordAgrees | core/adb_manager.py:216-224 | With a one-word type the two parsers agree, and `directory` gives `is_dir`. |
| ConfigStore.Load | core/config_manager.py:29-41 | A missing, unreadable or non-object file, or one without `pipelines`, loads as `[]`. Otherwise the stored list is loaded. |
| ConfigStore.Save | core/config_manager.py:43-52 | The document written holds version `2.0` and the whole current list. |
| ConfigStore.LoadSave | core/config_manager.py:29-52 | Loading what was saved gives the same list. |
| ConfigStore.AddPipeline | core/config_manager.py:54-56 | The length grows by one, earlier entries are unchanged, the new one is last, and the list is saved. |
| ConfigStore.UpdatePipeline | core/config_manager.py:58-61 | An in-range index replaces only that entry and saves. Any other index changes and saves nothing. |
| ConfigStore.DeletePipeline | core/config_manager.py:63-66 | An in-range index removes exactly that entry, keeps the rest in order, and saves. Any other index changes and saves nothing. |
| ConfigStore.DeleteUndoesAdd | core/config_manager.py:54-66 | Deleting what was just added restores the list. |
| ConfigStore.DeleteRemovesOne | core/config_manager.py:63-66 | Deletion takes out exactly one occurrence of the entry, as multisets. |
| ConfigStore.UpdateLaws | core/config_manager.py:58-61 | Writing an entry back unchanged is the identity, and updating is idempotent. |
| SyncQueue.FirstInRange | ui/main_window.py:445-451 | Gives the first queued index that names a pipeline, with every earlier one out of range, or says none does. |
| SyncQueue.StartNext | ui/main_window.py:436-477 | Nothing happens while a sync runs. Otherwise the front is popped past out-of-range indices and the first valid index starts, or the queue drains. |
| SyncQueue.StartNextValid | ui/main_window.py:436-477 | Starting keeps the queue duplicate-free with the running index not waiting. What starts names a pipeline. |
| SyncQueue.RequestSync | ui/main_window.py:414-434 | A waiting index is refused, then a running one, then an out-of-range one, and nothing changes. Otherwise the index joins the back, and it ends up waiting or running. |
| SyncQueue.EnqueueStarts | ui/main_window.py:431-434 | An enqueued valid index is started or still waiting after the kick. With nothing running, something starts. |
| SyncQueue.RequestSyncValid | ui/main_window.py:414-434 | Requests keep the queue duplicate-free. |
| SyncQueue.SyncDone | ui/main_window.py:503-538 | On finish or error the running flag clears and the next valid index starts. Otherwise the queue is empty. |
| SyncQueue.SyncDoneValid | ui/main_window.py:503-538 | Finishing keeps the queue duplicate-free. |
| SyncQueue.Without | ui/main_window.py:406 | The filtered queue lacks the index and keeps every other index's count. |
| SyncQueue.WithoutConcat | ui/main_window.py:406 | Filtering works piecewise, so the remaining order is kept. |
| SyncQueue.DeleteRequested | ui/main_window.py:397-409 | As written: the deleted index leaves the queue and everything else is untouched. |
| SyncQueue.DeleteRetargets | ui/main_window.py:406-409 | As written, a queued later pipeline is dropped or replaced by its neighbour after a deletion. |
| SyncQueue.DeleteRenumbered | ui/main_window.py:406 | Corrected: every waiting index after the deletion came from a waiting index other than the deleted one. |
| SyncQueue.DeleteRenumberedKeepsTargets | ui/main_window.py:406-409 | Corrected: every waiting index names the same pipeline before and after the deletion. |
| SyncQueue.DeleteRenumberedValid | ui/main_window.py:406 | The corrected deletion keeps the queue duplicate-free. |
| SyncQueue.DueFrom | ui/main_window.py:179-190 | The queued indices are exactly the auto-enabled ones never synced or synced more than 1800 s ago, in increasing order. |
| SyncQueue.TriggerAutoSync | ui/main_window.py:176-195 | The card loop equals the reference: due indices appended, stamped `now`, then the queue is kicked. |
| SyncQueue.StampStep | ui/main_window.py:185-189 | Stamping one index leaves the others' last times as they were. |
| SyncQueue.CooldownHolds | ui/main_window.py:185-187 | A pipeline auto-synced at most 1800 s ago is not queued again, and only auto-enabled pipelines are queued. |
| SyncQueue.AutoSyncStamps | ui/main_window.py:185-189 | Exactly the due indices are stamped `now`; other entries are kept and none is added. |
| SyncQueue.AutoSyncDuplicates | ui/main_window.py:185-190 | As written, an auto-sync can queue an index that is already waiting. |
| SyncQueue.Fresh | ui/main_window.py:190 | Corrected filter: the due indices neither waiting nor running, without duplicates. |
| SyncQueue.AutoSyncFixed | ui/main_window.py:176-195 | Corrected trigger: stamps exactly like the original. |
| SyncQueue.AutoSyncFixedValid | ui/main_window.py:176-195 | The corrected trigger keeps the queue duplicate-free. |
| PipelineForm.ParseExtensions | ui/pipeline_dialog.py:216-217 | Every parsed extension is non-empty, stripped and comma-free. |
| PipelineForm.ParseShow | ui/pipeline_dialog.py:79-85 | Parsing the comma join of clean extensions gives the list back. |
| PipelineForm.ParseIdempotent | ui/pipeline_dialog.py:216-217 | A parsed list survives a show-and-parse cycle unchanged. |
| PipelineForm.ParseSkipsBlank | ui/pipeline_dialog.py:216-217 | Padding around an extension and blank pieces are ignored. |
| PipelineForm.SelectDirection | ui/pipeline_dialog.py:72-74 | The box holds one of the three directions: the stored one if offered, else the first. |
| PipelineForm.ClampDays | ui/pipeline_dialog.py:90-92 | The days stay in 0..999, unchanged when already in range. |
| PipelineForm.SelectPlugin | ui/pipeline_dialog.py:101-105 | An offered plugin stays selected. Anything else becomes "(no plugin)". |
| PipelineForm.InitialForm | ui/pipeline_dialog.py:22-113 | Every field shows the stored value, and the widgets hold their ranges. A new pipeline gets empty text, the first direction, one day and no plugin. |
| PipelineForm.GetPipeline | ui/pipeline_dialog.py:214-244 | Text fields are taken verbatim except the stripped serial, and the lists are parsed. The config is `{}` with no plugin or invalid JSON. `auto_sync` is the original's, or false. |
| PipelineForm.EditUnchanged | ui/pipeline_dialog.py:22-244 | Opening and accepting a representable pipeline untouched gives it back. |
| PipelineForm.AcceptedWellFormed | ui/pipeline_dialog.py:214-244 | An accepted pipeline has an offered direction, days in range and a stripped serial. |

## Left out

**Running things and the outside world**

- Running `adb` is not modelled: subprocesses, timeouts, startup flags, the device singleton and its lock. Each parser takes the exit status and output.
  - `file_exists`, `mkdir`, `push` and `pull` are the transport's answers.
  - For `push` and `pull` only, an `AdbError` (no device selected, a timeout, `adb` missing) is caught per item at core/sync_engine.py:125-127. It counts as a failed transfer, which a failed answer models.
  - The transport answers each question the same way for the whole run, except that a device root `sync` has just created exists from then on.
- Local file system calls (`os.walk`, `os.stat`, `os.path.isdir`, `os.makedirs`) are not modelled.
  - The walked entries and the directory test are inputs.
  - A download's `makedirs` counts as part of its transfer.
- Clocks are parameters, and times are whole seconds.
  - Local `st_mtime` is a float in the program. Truncating it to whole seconds is a simplification.
  - `ls` dates go through `parseMinute`, `find` times through `parseSeconds`, and plugin dates through `parseDate` and `strftime`. All four are parameters.
- JSON file I/O is not modelled. `load` sees the decoded document, and the dialog's `json.loads`/`json.dumps` are parameters.
  - A plugin configuration that decodes to something other than an object is not represented.
  - A `pipelines` value that is not a list is not represented either.
- Plugin discovery (`core/plugin_manager.py`) is the `load` parameter of `Engine.Sync`.
- Qt widgets, signals, threads, logging and the progress bar are not modelled.
  - The queue model takes the number of pipelines and treats every in-range index as having its card.
  - `check_device`, which calls the auto-sync trigger, is not modelled.

**Engine and plugins**

- The engine never calls `on_sync_start`.
  - `on_sync_end` and `on_sync_error` have no effect in every plugin here.
  - Plugin hook calls are not recorded beyond the filter's `vetted` list.
- Engine.Sync: the error messages are English glosses of the program's Chinese messages.
- Engine.Sync: in the model the device never raises, but in the program an `AdbError` from these calls ends the run, whatever its cause:
  - `file_exists` or `mkdir` on the device root (core/sync_engine.py:54-56);
  - the same calls in the pre-pass (93-94);
  - `list_directory` during collection (187).

  The causes are no device selected, a timeout, or `adb` missing (core/adb_manager.py:85-86, 97-100). The error is re-raised at core/sync_engine.py:133-137. The model's root test, `mkdir` and listing always answer, so it cannot represent such a run. A root test that timed out reads there as a missing root.
- Reconcile.BidirectionalIdempotent: the resolvers are functions, so a conflict left alone is left alone again. In the program the conflict callback can be a person, who may answer differently the second time.
- Engine.Sync: plugin hooks and caller callbacks never raise in the model. In the program, an exception from `on_file_filter`, `on_conflict`, the conflict callback or the progress callback ends the run. Such an exception is re-raised at core/sync_engine.py:133-137, so such runs fail too. Those are the calls at core/sync_engine.py:104, 165, 210, 281 and 283.
- Pipelines.Pipeline: every key is present. The engine's defaults for a stored entry missing a key are not modelled. Those are `plugin_config` `{}`, `direction` `local_to_device`, empty extension lists and `sync_days` 1, at core/sync_engine.py:32 and 60-63. The dialog always writes every key.
- DateInterval.ResolvePaths: a float `interval_days` is not modelled. Python accepts one (`10.0` behaves as `10`); the model treats it as an unsupported value and fails. Day numbers are unbounded, so a period start outside the years 1-9999, which raises `OverflowError` in the program, succeeds here.
- Executor.Transfer: the stop flag is a number, `stopAt`: the first item before which the flag is seen raised. Nothing in the core sets the flag.
- Reconcile.Walk and Reconcile.CompareFiles: in bidirectional mode the order of operations follows set iteration. The contracts state the set and one-per-path, not an order.

**Text and paths**

- Text.Strip and Paths.Join carry no `ensures`. Their contracts are the lemmas `Text.StripShape` and `Paths.JoinShape`.
- Text.ParseInt: Python's `int()` also accepts `_` digit separators and non-ASCII digits. The model reads ASCII digits with optional surrounding whitespace and one sign.
- `isdigit` is modelled on ASCII digits only.
- Whitespace is the ASCII and Latin-1 set. Other Unicode spaces are not whitespace here.
- Text.Lower lowers `A`-`Z` and the Latin-1 capitals only. Python also lowers capitals above code point 255, such as Greek and Cyrillic, so such an extension would compare differently.
- Paths: drive letters (`C:`) in `os.path.join`/`dirname` are not modelled. Separators are `/` and `\`.

**Sync queue**

- SyncQueue.DeleteRenumbered: `last_auto_sync_time` is also keyed by index and is not renumbered either. The corrected model renumbers only the queue and the running index.
- The running index stands for both `_sync_running` and `sync_thread.index`. The program clears the flag on finish or error but keeps the thread object; the refusal at ui/main_window.py:421 tests both, so one optional index is equivalent.
- `on_sync_finished` and `on_sync_error` receive the finished index but ignore it for the queue. So does the model.

## Findings

| source | as written | input that shows it | evidently intended | confidence | as-written member | corrected member |
|---|---|---|---|---|---|---|
| core/adb_manager.py:216-220 | The first word of the `stat -c '%F %s %Y'` output is the type, the second the size. | A regular file prints `regular file 12 1700000000`, and `int("file")` raises. | Read the size and time from the last two words; the type is the rest. | not executed; high — every non-directory type of `stat` has more than one word | AdbParse.StatRegularFileRaises | AdbParse.StatRoundTrip |
| ui/main_window.py:406-409 | Deleting a pipeline removes its index from the queue but keeps later indices as they are, though every later pipeline moves down by one. | Pipelines `[a, b]` with `b` (index 1) queued: delete `a`, and index 1 names nothing, so the sync of `b` is dropped. With `[a, b, c]` the same deletion syncs `c` instead of `b`. | Indices above the deleted one move down with their pipelines. | not executed; high | SyncQueue.DeleteRetargets | SyncQueue.DeleteRenumberedKeepsTargets |
| ui/main_window.py:185-190 | The auto-sync trigger queues a due pipeline without checking whether it is already waiting or running, though manual requests refuse both. | Index 0 waiting behind a running sync of index 1: a device reconnect queues 0 a second time. | Skip indices already waiting or running, as `on_sync_requested` does. | not executed; medium — the duplicate only repeats a sync | SyncQueue.AutoSyncDuplicates | SyncQueue.AutoSyncFixedValid |
